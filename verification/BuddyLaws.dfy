/** What every get and free of the buddy system keeps, and what a whole run of them gives. */
module BuddyLaws {
  import opened Dyadic
  import opened BuddySpec

  /** From s to t the chunk (a, k) was handed out: its pages were free and nothing else changed hands. */
  ghost predicate Handed(s: State, t: State, a: nat, k: nat) {
    && s.own.Keys == t.own.Keys
    && (forall q: nat | q in s.own ::
          if a <= q < a + Pow2(k) then !s.own[q].taken && t.own[q] == Chunk(a, k, true)
          else t.own[q].taken == s.own[q].taken && (s.own[q].taken ==> t.own[q] == s.own[q]))
  }

  lemma PopHanded(s: State, k: nat, lo: nat, hi: nat)
    requires Inv(s, lo, hi) && k < ORDERS && s.lists[k] != []
    ensures Handed(s, Pop(s, k), s.lists[k][0], k)
  {
    var a := s.lists[k][0];
    assert FreeAt(s.own, a, k);
    HeldPages(s, a, k, lo, hi);
  }

  lemma CutHanded(s: State, t: State, u: State, a: nat, k: nat)
    requires Handed(s, t, a, k + 1) && u.own.Keys == t.own.Keys
    requires forall q: nat | q in t.own ::
        u.own[q] == if a <= q < a + Pow2(k) then Chunk(a, k, true)
                    else if a + Pow2(k) <= q < a + Pow2(k + 1) then Chunk(a + Pow2(k), k, false)
                    else t.own[q]
    ensures Handed(s, u, a, k)
  {
  }

  lemma HalveHanded(s: State, t: State, a: nat, k: nat, lo: nat, hi: nat)
    requires Inv(t, lo, hi) && Held(t, a, k + 1) && Handed(s, t, a, k + 1) && k < ORDERS
    ensures Handed(s, Halve(t, a, k), a, k)
  {
    HeldPages(t, a, k + 1, lo, hi);
    var own' := HalveOwn(t, a, k);
    hide Inv, Halve;
    CutHanded(s, t, Halve(t, a, k), a, k);
  }

  /** buddy_get_pages keeps the invariant, hands out a chunk of the right order, and fails
      only when every list from that order up is empty. */
  lemma {:induction false} TakeKeeps(s: State, k: nat, lo: nat, hi: nat)
    requires Inv(s, lo, hi)
    ensures match Take(s, k)
      case NoPage => forall j | k <= j < ORDERS :: s.lists[j] == []
      case Got(t, a) => k < ORDERS && Inv(t, lo, hi) && Held(t, a, k) && Handed(s, t, a, k)
    decreases ORDERS - k
  {
    hide Tiling, NoPair, Handed, Halve, Pop;
    if k >= ORDERS {
    } else if s.lists[k] != [] {
      PopKeeps(s, k, lo, hi);
      PopHanded(s, k, lo, hi);
    } else {
      TakeKeeps(s, k + 1, lo, hi);
      match Take(s, k + 1)
      case NoPage =>
      case Got(s1, a) =>
        HalveKeeps(s1, a, k, lo, hi);
        HalveHanded(s, s1, a, k, lo, hi);
    }
  }

  /** Between s and t the held chunk (a, k) grew to (a1, k1) by swallowing free pages only. */
  ghost predicate Grown(s: State, a: nat, k: nat, t: State, a1: nat, k1: nat) {
    && s.own.Keys == t.own.Keys
    && a1 <= a && a + Pow2(k) <= a1 + Pow2(k1)
    && (forall q: nat | q in s.own ::
          if a <= q < a + Pow2(k) then s.own[q] == Chunk(a, k, true) && a1 <= q < a1 + Pow2(k1)
          else if a1 <= q < a1 + Pow2(k1) then !s.own[q].taken
          else t.own[q].taken == s.own[q].taken && (s.own[q].taken ==> t.own[q] == s.own[q]))
  }

  lemma JoinGrows(s: State, a: nat, k: nat, lo: nat, hi: nat)
    requires Inv(s, lo, hi) && Held(s, a, k) && BuddyListed(s, a, k)
    ensures Grown(s, a, k, Join(s, a, k), Floor(a, k + 1), k + 1)
  {
    var b := BuddyOf(a, k);
    assert FreeAt(s.own, b, k);
    HeldPages(s, a, k, lo, hi);
    HeldPages(s, b, k, lo, hi);
    BuddyFacts(a, k);
  }

  lemma GrownTrans(s: State, a: nat, k: nat, t: State, b: nat, j: nat, u: State, c: nat, i: nat)
    requires Grown(s, a, k, t, b, j) && Grown(t, b, j, u, c, i)
    ensures Grown(s, a, k, u, c, i)
  {
  }

  lemma NotListedNotFree(s: State, a: nat, k: nat)
    requires ListsAgree(s) && k < TOP && !BuddyListed(s, a, k)
    ensures !FreeAt(s.own, BuddyOf(a, k), k)
  {
    var b := BuddyOf(a, k);
    if b >= 0 {
      assert b in s.lists[k] <==> FreeAt(s.own, b, k);
    }
  }

  /** m is a lawful outcome of merging the held chunk (a, k) of s. */
  ghost predicate MergeOk(s: State, a: nat, k: nat, m: MergeResult, lo: nat, hi: nat) {
    && Inv(m.s, lo, hi) && Held(m.s, m.a, m.k) && Grown(s, a, k, m.s, m.a, m.k)
    && (m.k < TOP ==> !FreeAt(m.s.own, BuddyOf(m.a, m.k), m.k))
  }

  lemma MergeOkTrans(s: State, a: nat, k: nat, t: State, b: nat, j: nat, m: MergeResult, lo: nat, hi: nat)
    requires Grown(s, a, k, t, b, j) && MergeOk(t, b, j, m, lo, hi)
    ensures MergeOk(s, a, k, m, lo, hi)
  {
    GrownTrans(s, a, k, t, b, j, m.s, m.a, m.k);
  }

  lemma MergeStops(s: State, a: nat, k: nat, lo: nat, hi: nat)
    requires Inv(s, lo, hi) && Held(s, a, k) && k <= TOP && !BuddyListed(s, a, k)
    ensures MergeOk(s, a, k, Merged(s, a, k), lo, hi)
  {
    HeldPages(s, a, k, lo, hi);
    if k < TOP { NotListedNotFree(s, a, k); }
  }

  /** merge_chunk keeps the invariant and stops only at the top or at a buddy that is not free. */
  lemma {:induction false} MergeKeeps(s: State, a: nat, k: nat, lo: nat, hi: nat)
    requires Inv(s, lo, hi) && Held(s, a, k) && k <= TOP
    ensures MergeOk(s, a, k, Merge(s, a, k), lo, hi)
    decreases TOP - k
  {
    hide Tiling, NoPair, Grown, Join, Floor, BuddyOf;
    if BuddyListed(s, a, k) {
      var t, b := Join(s, a, k), Floor(a, k + 1);
      JoinKeeps(s, a, k, lo, hi);
      JoinGrows(s, a, k, lo, hi);
      MergeKeeps(t, b, k + 1, lo, hi);
      MergeOkTrans(s, a, k, t, b, k + 1, Merge(t, b, k + 1), lo, hi);
    } else {
      MergeStops(s, a, k, lo, hi);
    }
  }

  /** buddy_free_pages is the inverse hand-over, and keeps the invariant. */
  lemma FreeKeeps(s: State, a: nat, k: nat, lo: nat, hi: nat)
    requires Inv(s, lo, hi) && Held(s, a, k)
    ensures k <= TOP && Inv(Free(s, a), lo, hi) && Handed(Free(s, a), s, a, k)
  {
    HeldPages(s, a, k, lo, hi);
    MergeKeeps(s, a, k, lo, hi);
    var m := Merge(s, a, k);
    PushKeeps(m.s, m.a, m.k, lo, hi);
    HeldPages(m.s, m.a, m.k, lo, hi);
    hide Inv, Merge;
    PushHanded(s, m.s, a, k, m.a, m.k);
  }

  lemma PushHanded(s: State, t: State, a: nat, k: nat, a1: nat, k1: nat)
    requires Grown(s, a, k, t, a1, k1) && k1 < |t.lists|
    requires forall q: nat | a1 <= q < a1 + Pow2(k1) :: q in t.own
    ensures Handed(Push(t, a1, k1), s, a, k)
  {
  }

  // ---------- which lists a get touches ----------

  /** The order the get at order k starts splitting at: the least non-empty one, or ORDERS. */
  function FirstOrder(lists: seq<seq<nat>>, k: nat): (j: nat)
    ensures k < |lists| ==> k <= j <= |lists|
    ensures j < |lists| ==> lists[j] != []
    ensures forall i | k <= i < j && i < |lists| :: lists[i] == []
    decreases |lists| - k
  {
    if k >= |lists| then |lists| else if lists[k] != [] then k else FirstOrder(lists, k + 1)
  }

  /** t is s with list j popped and the upper halves of the popped chunk on lists k..j-1. */
  ghost predicate SplitLists(s: State, k: nat, j: nat, t: State, a: nat)
    requires |s.lists| == ORDERS && |t.lists| == ORDERS
  {
    && j < ORDERS && s.lists[j] != [] && a == s.lists[j][0]
    && (forall i | 0 <= i < ORDERS ::
          t.lists[i] == if i == j then s.lists[j][1..] else if k <= i < j then [a + Pow2(i)] else s.lists[i])
  }

  /** The exact effect of a get on all eleven lists. */
  lemma {:induction false} TakeLists(s: State, k: nat)
    requires |s.lists| == ORDERS && k <= ORDERS
    ensures match Take(s, k)
      case NoPage => FirstOrder(s.lists, k) == ORDERS
      case Got(t, a) => k < ORDERS && SplitLists(s, k, FirstOrder(s.lists, k), t, a)
    decreases ORDERS - k
  {
    if k < ORDERS && s.lists[k] == [] {
      TakeLists(s, k + 1);
      match Take(s, k + 1)
      case NoPage =>
      case Got(t, a) => HalveLists1(s, k, FirstOrder(s.lists, k + 1), t, a);
    }
  }

  lemma HalveLists1(s: State, k: nat, j: nat, t: State, a: nat)
    requires |s.lists| == ORDERS && |t.lists| == ORDERS && k < j < ORDERS && s.lists[k] == []
    requires SplitLists(s, k + 1, j, t, a)
    ensures SplitLists(s, k, j, Halve(t, a, k), a)
  {
    assert [a + Pow2(k)] + t.lists[k] == [a + Pow2(k)];
  }

  // ---------- which lists a free touches ----------

  /** From s to t the lists of orders k..m-1 lost the buddy of the block that encloses a, the rest in order. */
  ghost predicate MergedLists(s: State, t: State, a: nat, k: nat, m: nat)
    requires |s.lists| == ORDERS && |t.lists| == ORDERS
  {
    forall j | 0 <= j < ORDERS :: LostBuddy(s, t, a, k, m, j)
  }

  ghost predicate LostBuddy(s: State, t: State, a: nat, k: nat, m: nat, j: nat)
    requires |s.lists| == ORDERS && |t.lists| == ORDERS && j < ORDERS
  {
    var b := BuddyOf(Floor(a, j), j);
    if k <= j < m then b >= 0 && FreeAt(s.own, b, j) && Removed(s.lists[j], t.lists[j], b) else t.lists[j] == s.lists[j]
  }

  lemma FloorAtHead(a: nat, k: nat)
    requires Aligned(a, k)
    ensures Floor(a, k) == a
  {
  }

  lemma SameListSameFree(s: State, t: State, x: int, j: nat)
    requires ListsAgree(s) && ListsAgree(t) && j < ORDERS && s.lists[j] == t.lists[j]
    ensures FreeAt(s.own, x, j) == FreeAt(t.own, x, j)
  {
    if x >= 0 {
      assert x in s.lists[j] <==> FreeAt(s.own, x, j);
      assert x in t.lists[j] <==> FreeAt(t.own, x, j);
    }
  }

  lemma JoinLists(s: State, a: nat, k: nat)
    requires |s.lists| == ORDERS && BuddyListed(s, a, k)
    ensures var t := Join(s, a, k);
      |t.lists| == ORDERS && Removed(s.lists[k], t.lists[k], BuddyOf(a, k)) && forall j | 0 <= j < ORDERS && j != k :: t.lists[j] == s.lists[j]
  {
    RemoveIs(s.lists[k], BuddyOf(a, k));
  }

  lemma {:induction false} MergeLists(s: State, a: nat, k: nat, lo: nat, hi: nat)
    requires Inv(s, lo, hi) && Held(s, a, k) && k <= TOP
    ensures var r := Merge(s, a, k);
      && r.a == Floor(a, r.k) && MergedLists(s, r.s, a, k, r.k)
      && (r.k < TOP ==> !FreeAt(s.own, BuddyOf(Floor(a, r.k), r.k), r.k))
    decreases TOP - k
  {
    hide Tiling, NoPair, ListsAgree, Join, Floor, BuddyOf, Removed;
    InvHeldPages(s, a, k, lo, hi);
    FloorAtHead(a, k);
    if BuddyListed(s, a, k) {
      var t, b := Join(s, a, k), Floor(a, k + 1);
      JoinKeeps(s, a, k, lo, hi);
      JoinLists(s, a, k);
      MergeLists(t, b, k + 1, lo, hi);
      var r := Merge(t, b, k + 1);
      forall j | 0 <= j < ORDERS ensures LostBuddy(s, r.s, a, k, r.k, j) {
        assert LostBuddy(t, r.s, b, k + 1, r.k, j);
        if k < j {
          FloorFloor(a, k + 1, j);
          SameListSameFree(s, t, BuddyOf(Floor(a, j), j), j);
        } else if j == k {
          ListedFree(s, a, k);
        }
      }
      FloorFloor(a, k + 1, r.k);
      SameListSameFree(s, t, BuddyOf(Floor(a, r.k), r.k), r.k);
    } else if k < TOP {
      NotListedNotFree(s, a, k);
    }
  }

  lemma ListedFree(s: State, a: nat, k: nat)
    requires ListsAgree(s) && BuddyListed(s, a, k)
    ensures BuddyOf(a, k) >= 0 && FreeAt(s.own, BuddyOf(a, k), k)
  {
    assert BuddyOf(a, k) in s.lists[k] <==> FreeAt(s.own, BuddyOf(a, k), k);
  }

  /** The exact effect of a free on all eleven lists: from the chunk's order up to the first order whose buddy is not free
      each list loses the buddy, the rest in order; the merged chunk goes in front of the list of that order. */
  lemma FreeLists(s: State, a: nat, k: nat, lo: nat, hi: nat) returns (m: nat)
    requires Inv(s, lo, hi) && Held(s, a, k)
    ensures k <= m <= TOP && |Free(s, a).lists| == ORDERS
    ensures forall j | k <= j < m :: BuddyOf(Floor(a, j), j) >= 0 && FreeAt(s.own, BuddyOf(Floor(a, j), j), j)
    ensures m < TOP ==> !FreeAt(s.own, BuddyOf(Floor(a, m), m), m)
    ensures forall j | k <= j < m :: Removed(s.lists[j], Free(s, a).lists[j], BuddyOf(Floor(a, j), j))
    ensures Free(s, a).lists[m] == [Floor(a, m)] + s.lists[m]
    ensures forall j | 0 <= j < ORDERS && !(k <= j <= m) :: Free(s, a).lists[j] == s.lists[j]
  {
    hide Tiling, NoPair, ListsAgree, Merge, Floor, BuddyOf, Removed;
    InvHeldPages(s, a, k, lo, hi);
    MergeLists(s, a, k, lo, hi);
    var r := Merge(s, a, k);
    m := r.k;
    assert LostBuddy(s, r.s, a, k, m, m);
    forall j | k <= j < m
      ensures BuddyOf(Floor(a, j), j) >= 0 && FreeAt(s.own, BuddyOf(Floor(a, j), j), j)
      ensures Removed(s.lists[j], Free(s, a).lists[j], BuddyOf(Floor(a, j), j))
    {
      assert LostBuddy(s, r.s, a, k, m, j);
    }
    forall j | 0 <= j < ORDERS && !(k <= j <= m) ensures Free(s, a).lists[j] == s.lists[j] {
      assert LostBuddy(s, r.s, a, k, m, j);
    }
  }

  // ---------- LIFO ----------

  /** Halving undone: joining the halves again gives the state before the cut. */
  lemma JoinUndoesHalve(s: State, a: nat, k: nat, lo: nat, hi: nat)
    requires Inv(s, lo, hi) && Held(s, a, k + 1) && k < TOP && s.lists[k] == []
    ensures BuddyListed(Halve(s, a, k), a, k)
    ensures Floor(a, k + 1) == a && Join(Halve(s, a, k), a, k) == s
  {
    hide Tiling, NoPair, ListsAgree;
    InvHeldPages(s, a, k + 1, lo, hi);
    UpperHalfBuddy(a, k);
    HalveListsExact(s, a, k);
    var own' := HalveOwn(s, a, k);
    RepaintHeld(s, own', a, k + 1);
    hide Halve;
  }

  lemma HalveListsExact(s: State, a: nat, k: nat)
    requires k < |s.lists| && s.lists[k] == []
    ensures var t := Halve(s, a, k); var u := a + Pow2(k);
      && |t.lists| == |s.lists| && t.lists[k] == [u] && t.lists[k := Remove([u], u)] == s.lists
  {
    var u := a + Pow2(k);
    assert Halve(s, a, k).lists[k] == [u];
    assert Remove([u], u) == [];
  }

  /** Painting the held chunk over anything that differs from s only inside it gives s back. */
  lemma RepaintHeld(s: State, own': map<nat, Chunk>, a: nat, k: nat)
    requires own'.Keys == s.own.Keys
    requires forall q: nat | a <= q < a + Pow2(k) :: q in s.own && s.own[q] == Chunk(a, k, true)
    requires forall q: nat | q in s.own && !(a <= q < a + Pow2(k)) :: own'[q] == s.own[q]
    ensures Paint(own', Chunk(a, k, true)) == s.own
  {
    assert Paint(own', Chunk(a, k, true)).Keys == s.own.Keys;
  }

  lemma PushUndoesPop(s: State, k: nat, lo: nat, hi: nat)
    requires Inv(s, lo, hi) && k < ORDERS && s.lists[k] != []
    ensures Push(Pop(s, k), s.lists[k][0], k) == s
  {
    hide Tiling, NoPair;
    var a := s.lists[k][0];
    assert FreeAt(s.own, a, k);
    HeldPages(s, a, k, lo, hi);
    assert Push(Pop(s, k), a, k).own == s.own;
    assert [a] + s.lists[k][1..] == s.lists[k];
  }

  lemma PopStopsMerge(s: State, k: nat, lo: nat, hi: nat)
    requires Inv(s, lo, hi) && k < ORDERS && s.lists[k] != []
    ensures Merge(Pop(s, k), s.lists[k][0], k) == Merged(Pop(s, k), s.lists[k][0], k)
  {
    var a := s.lists[k][0];
    assert FreeAt(s.own, a, k);
    assert !Mergeable(s.own, a, k);
    if BuddyListed(Pop(s, k), a, k) {
      assert false;
    }
  }

  lemma MergeHalve(s: State, a: nat, k: nat, lo: nat, hi: nat)
    requires Inv(s, lo, hi) && Held(s, a, k + 1) && k < TOP && s.lists[k] == []
    ensures Merge(Halve(s, a, k), a, k) == Merge(s, a, k + 1)
  {
    JoinUndoesHalve(s, a, k, lo, hi);
  }

  /** Merging what a get handed out climbs back exactly to the level where splitting began. */
  lemma {:induction false} MergeAfterTake(s: State, k: nat, lo: nat, hi: nat)
    requires Inv(s, lo, hi) && k < ORDERS && Take(s, k).Got?
    ensures FirstOrder(s.lists, k) < ORDERS
    ensures var j := FirstOrder(s.lists, k); var r := Take(s, k);
      Merge(r.s, r.a, k) == Merged(Pop(s, j), s.lists[j][0], j)
    decreases ORDERS - k
  {
    hide NoPair, ListsAgree, Tiling, Pop, Halve, Join, BuddyOf, Floor, Pow2, Held, Handed;
    if s.lists[k] != [] {
      PopStopsMerge(s, k, lo, hi);
    } else {
      MergeAfterTake(s, k + 1, lo, hi);
      TakeLists(s, k + 1);
      TakeKeeps(s, k + 1, lo, hi);
      var r := Take(s, k + 1);
      MergeHalve(r.s, r.a, k, lo, hi);
    }
  }

  /** A get followed at once by the free of its result restores the whole state, list order included. */
  lemma FreeUndoesTake(s: State, k: nat, lo: nat, hi: nat)
    requires Inv(s, lo, hi) && Take(s, k).Got?
    ensures var r := Take(s, k); Held(r.s, r.a, k) && k <= TOP && Free(r.s, r.a) == s
  {
    TakeKeeps(s, k, lo, hi);
    MergeAfterTake(s, k, lo, hi);
    PushUndoesPop(s, FirstOrder(s.lists, k), lo, hi);
  }

  /** A well-nested program: get k, run `inner`, free what was got (if anything), run `rest`. */
  datatype Nest = Done | Bracket(k: nat, inner: Nest, rest: Nest)

  function RunNest(s: State, p: Nest): (t: State)
    requires |s.lists| == ORDERS
    ensures |t.lists| == ORDERS
    decreases p
  {
    match p
    case Done => s
    case Bracket(k, inner, rest) =>
      match Take(s, k)
      case NoPage =>
        var u := RunNest(s, inner);
        RunNest(u, rest)
      case Got(t, a) =>
        var u := RunNest(t, inner);
        if a in u.own && u.own[a].order <= TOP then RunNest(Free(u, a), rest) else u
  }

  /** Any nest of gets freed in reverse order restores every list as a sequence. */
  lemma {:induction false} NestRestores(s: State, p: Nest, lo: nat, hi: nat)
    requires Inv(s, lo, hi)
    ensures RunNest(s, p) == s
    decreases p
  {
    match p
    case Done =>
    case Bracket(k, inner, rest) =>
      TakeKeeps(s, k, lo, hi);
      match Take(s, k)
      case NoPage =>
        NestRestores(s, inner, lo, hi);
        NestRestores(s, rest, lo, hi);
      case Got(t, a) =>
        NestRestores(t, inner, lo, hi);
        FreeUndoesTake(s, k, lo, hi);
        NestRestores(s, rest, lo, hi);
  }

  // ---------- the free chunks are a function of the free pages ----------

  /** An aligned interval of free pages lies in one free chunk. */
  lemma {:induction false} FreeIntervalIsOneChunk(s: State, r: nat, m: nat, lo: nat, hi: nat)
    requires Inv(s, lo, hi) && m <= TOP && Aligned(r, m)
    requires forall q: nat | r <= q < r + Pow2(m) :: q in s.own && !s.own[q].taken
    ensures s.own[r].order >= m
    decreases m
  {
    if m > 0 {
      var u := r + Pow2(m - 1);
      HalvesAligned(r, m - 1);
      FreeIntervalIsOneChunk(s, r, m - 1, lo, hi);
      FreeIntervalIsOneChunk(s, u, m - 1, lo, hi);
      if s.own[r].order == m - 1 {
        HeadOfAligned(s, r, m - 1, lo, hi);
        if s.own[u].order >= m {
          var c := s.own[u];
          Nested(r, m, c.start, c.order);
          assert Covers(c, r);
        } else {
          HeadOfAligned(s, u, m - 1, lo, hi);
          UpperHalfBuddy(r, m - 1);
          assert Mergeable(s.own, r, m - 1);
        }
        assert false;
      }
    }
  }

  /** A page aligned to at least its chunk's size is the head of its chunk. */
  lemma HeadOfAligned(s: State, a: nat, k: nat, lo: nat, hi: nat)
    requires Tiling(s.own, lo, hi) && a in s.own && s.own[a].order <= k && Aligned(a, k)
    ensures s.own[a].start == a
  {
    var c := s.own[a];
    AlignedLower(a, c.order, k);
    if c.start < a { AlignedGap(c.start, a, c.order); }
  }

  ghost predicate SameFree(s: State, t: State) {
    s.own.Keys == t.own.Keys && forall q: nat | q in s.own :: s.own[q].taken == t.own[q].taken
  }

  lemma FreeOrderDominates(s: State, t: State, q: nat, lo: nat, hi: nat)
    requires Inv(s, lo, hi) && Inv(t, lo, hi) && SameFree(s, t)
    requires q in s.own && !s.own[q].taken
    ensures s.own[q].order >= t.own[q].order
  {
    var d := t.own[q];
    forall p: nat | d.start <= p < d.start + Pow2(d.order)
      ensures p in s.own && !s.own[p].taken
    {
      assert Covers(d, p);
    }
    FreeIntervalIsOneChunk(s, d.start, d.order, lo, hi);
    var c := s.own[d.start];
    Nested(d.start, d.order, c.start, c.order);
    assert Covers(c, q);
  }

  /** Two invariant states with the same free pages have the same free chunks: the free
      chunks are the maximal dyadic decomposition of the set of free pages. */
  lemma FreeChunksUnique(s: State, t: State, lo: nat, hi: nat)
    requires Inv(s, lo, hi) && Inv(t, lo, hi) && SameFree(s, t)
    ensures forall q: nat | q in s.own && !s.own[q].taken :: s.own[q] == t.own[q]
    ensures forall k | 0 <= k < ORDERS :: multiset(s.lists[k]) == multiset(t.lists[k])
  {
    forall q: nat | q in s.own && !s.own[q].taken ensures s.own[q] == t.own[q] {
      FreeOrderDominates(s, t, q, lo, hi);
      FreeOrderDominates(t, s, q, lo, hi);
      var c, d := s.own[q], t.own[q];
      Nested(c.start, c.order, d.start, d.order);
      Nested(d.start, d.order, c.start, c.order);
    }
    forall k | 0 <= k < ORDERS ensures multiset(s.lists[k]) == multiset(t.lists[k]) {
      forall a: nat ensures a in s.lists[k] <==> a in t.lists[k] {
        assert a in s.lists[k] <==> FreeAt(s.own, a, k);
        assert a in t.lists[k] <==> FreeAt(t.own, a, k);
      }
      SameSetSameMultiset(s.lists[k], t.lists[k]);
    }
  }

  lemma DistinctCount(xs: seq<nat>, x: nat)
    requires Distinct(xs)
    ensures multiset(xs)[x] == if x in xs then 1 else 0
  {
    if x in xs {
      var i := IndexOf(xs, x);
      assert xs == xs[..i] + [x] + xs[i + 1..];
    }
  }

  lemma SameSetSameMultiset(xs: seq<nat>, ys: seq<nat>)
    requires Distinct(xs) && Distinct(ys) && forall a: nat :: a in xs <==> a in ys
    ensures multiset(xs) == multiset(ys)
  {
    forall a: nat ensures multiset(xs)[a] == multiset(ys)[a] {
      DistinctCount(xs, a);
      DistinctCount(ys, a);
    }
  }
}
