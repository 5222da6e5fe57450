/**
  The slab allocator and kmalloc as a value: the buddy state, the live slabs with their free
  chains, and per size class the current slab and the partial list.
 */
module SlabSpec {
  import opened Dyadic
  import opened BuddySpec
  import opened BuddyLaws
  import opened BuddyRuns
  import opened Kernel

  const CLASSES: nat := 6       // SLAB_POOL_SIZE; class c serves blocks of 2^(c+6) bytes
  const SLAB_ORDER: nat := 5    // SLAB_PAGE_ORDER: a slab is 32 pages

  /** `free` is the free chain, as block indices; block 0 holds the slab header. */
  datatype Slab = Slab(cls: nat, free: seq<nat>)

  /** Slabs are named by their first page. */
  datatype State = State(b: BuddySpec.State, slabs: map<nat, Slab>, current: seq<Option<nat>>, partial: seq<seq<nat>>)

  datatype AllocResult = OutOfMemory(s: State) | Block(s: State, a: nat, i: nat)

  function BlockSize(c: nat): nat {
    Pow2(c + 6)
  }

  /** total_block_count of class c. */
  function Blocks(c: nat): nat {
    if c <= 11 then Pow2(11 - c) else 0
  }

  /** The chain alloc_slab_from_buddy builds. */
  function Fresh(c: nat): Slab {
    Slab(c, seq(if Blocks(c) > 0 then Blocks(c) - 1 else 0, i => i + 1))
  }

  // ---------- invariant ----------

  ghost predicate ChainOk(l: Slab) {
    l.cls < CLASSES && Distinct(l.free) && forall j | 0 <= j < |l.free| :: 1 <= l.free[j] < Blocks(l.cls)
  }

  predicate IsCurrent(s: State, a: nat) {
    a in s.slabs && s.slabs[a].cls < |s.current| && s.current[s.slabs[a].cls] == Some(a)
  }

  predicate IsPartial(s: State, a: nat) {
    a in s.slabs && s.slabs[a].cls < |s.partial| && a in s.partial[s.slabs[a].cls]
  }

  ghost predicate SlabsOk(s: State) {
    forall a | a in s.slabs :: Held(s.b, a, SLAB_ORDER) && ChainOk(s.slabs[a])
  }

  /** The current slab of a class is a live slab of that class with a free block. */
  ghost predicate CurrentOk(s: State) {
    |s.current| == CLASSES
    && forall c | 0 <= c < CLASSES && s.current[c].Some? ::
         var a := s.current[c].value; a in s.slabs && s.slabs[a].cls == c && s.slabs[a].free != []
  }

  /** A partial list holds, once each, slabs of its class with 1 to total-2 free blocks, none of them current. */
  ghost predicate PartialOk(s: State) {
    |s.partial| == CLASSES
    && (forall c | 0 <= c < CLASSES :: Distinct(s.partial[c]))
    && forall c, a: nat | 0 <= c < CLASSES && a in s.partial[c] ::
         a in s.slabs && s.slabs[a].cls == c && 1 <= |s.slabs[a].free| <= Blocks(c) - 2 && !IsCurrent(s, a)
  }

  /** A slab that is neither current nor on a partial list is full. */
  ghost predicate Unlisted(s: State) {
    forall a | a in s.slabs && !IsCurrent(s, a) && !IsPartial(s, a) :: s.slabs[a].free == []
  }

  ghost predicate SInv(s: State, lo: nat, hi: nat) {
    && |s.b.lists| == ORDERS && |s.current| == |s.partial| == CLASSES
    && Inv(s.b, lo, hi) && SlabsOk(s) && Sorted(s)
  }

  /** Every slab is in exactly one of the states current, partial, full. */
  ghost predicate Sorted(s: State) {
    CurrentOk(s) && PartialOk(s) && Unlisted(s)
  }

  // ---------- operations ----------

  /** alloc_slab_from_buddy; `current` is set only on success. */
  function Grow(s: State, c: nat): Option<State>
    requires |s.b.lists| == ORDERS && c < |s.current|
  {
    match Take(s.b, SLAB_ORDER)
    case NoPage => None
    case Got(t, a) => Some(s.(b := t, slabs := s.slabs[a := Fresh(c)], current := s.current[c := Some(a)]))
  }

  /** get_from_partial_list into `current`. */
  function FromPartial(s: State, c: nat): State
    requires c < |s.current| && c < |s.partial|
  {
    if s.partial[c] == [] then s.(current := s.current[c := None])
    else s.(current := s.current[c := Some(s.partial[c][0])], partial := s.partial[c := s.partial[c][1..]])
  }

  /** set_new_current_slab */
  function NewCurrent(s: State, c: nat): State
    requires |s.b.lists| == ORDERS && c < |s.current| && c < |s.partial|
  {
    var t := FromPartial(s, c);
    if t.current[c] == None then (match Grow(t, c) case None => t case Some(u) => u) else t
  }

  /** slab_get_free_block of the current slab of class c, and a new current slab when that was the last block. */
  function TakeBlock(s: State, c: nat): AllocResult
    requires |s.b.lists| == ORDERS && c < |s.current| && c < |s.partial|
    requires s.current[c].Some? && s.current[c].value in s.slabs && s.slabs[s.current[c].value].free != []
  {
    var a := s.current[c].value;
    var l := s.slabs[a];
    var t := s.(slabs := s.slabs[a := l.(free := l.free[1..])]);
    Block(if l.free[1..] == [] then NewCurrent(t, c) else t, a, l.free[0])
  }

  /** __slab_alloc */
  ghost function Alloc(s: State, c: nat, lo: nat, hi: nat): AllocResult
    requires SInv(s, lo, hi) && c < CLASSES
  {
    if s.current[c].Some? then TakeBlock(s, c)
    else match Grow(s, c)
      case None => OutOfMemory(s)
      case Some(t) => GrowTakeable(s, c, lo, hi); TakeBlock(t, c)
  }

  /** slab_put_block */
  function PutBlock(s: State, a: nat, i: nat): State
    requires a in s.slabs
  {
    s.(slabs := s.slabs[a := s.slabs[a].(free := [i] + s.slabs[a].free)])
  }

  /** __slab_free */
  function FreeBlock(s: State, a: nat, i: nat): State
    requires a in s.slabs && s.slabs[a].cls < |s.current| && s.slabs[a].cls < |s.partial|
    requires |s.b.lists| == ORDERS && a in s.b.own && s.b.own[a].order <= TOP
  {
    var c := s.slabs[a].cls;
    var t := PutBlock(s, a, i);
    var n := |t.slabs[a].free|;
    if n == 1 then t.(partial := t.partial[c := t.partial[c] + [a]])
    else if n == Blocks(c) - 1 then
      var u := t.(b := Free(t.b, a), slabs := t.slabs - {a});
      if t.current[c] == Some(a) then FromPartial(u, c)
      else if a in t.partial[c] then u.(partial := u.partial[c := Remove(u.partial[c], a)]) else u
    else t
  }

  // ---------- arithmetic of the classes ----------

  lemma ClassSizes(c: nat)
    requires c < CLASSES
    ensures 64 <= Blocks(c) <= 2048 && 64 <= BlockSize(c) <= 2048 && Blocks(c) * BlockSize(c) == 131072
  {
    assert Pow2(5) == 32;
    assert Pow2(6) == 64 && Pow2(7) == 128;
    assert Pow2(8) == 256 && Pow2(9) == 512;
    assert Pow2(10) == 1024 && Pow2(11) == 2048;
  }

  lemma FreshOk(c: nat)
    requires c < CLASSES
    ensures Fresh(c).cls == c && ChainOk(Fresh(c)) && |Fresh(c).free| == Blocks(c) - 1 && Fresh(c).free != []
    ensures forall i: nat :: i in Fresh(c).free <==> 1 <= i < Blocks(c)
  {
    ClassSizes(c);
    var f := Fresh(c).free;
    forall i: nat | 1 <= i < Blocks(c) ensures i in f {
      assert f[i - 1] == i;
    }
  }

  lemma GrowTakeable(s: State, c: nat, lo: nat, hi: nat)
    requires SInv(s, lo, hi) && c < CLASSES && Grow(s, c).Some?
    ensures var t := Grow(s, c).value;
      |t.b.lists| == ORDERS && t.current[c].Some? && t.current[c].value in t.slabs
      && t.slabs[t.current[c].value].free != []
  {
    FreshOk(c);
  }

  // ---------- preservation ----------

  lemma SlabFacts(s: State, a: nat, lo: nat, hi: nat)
    requires SInv(s, lo, hi) && a in s.slabs
    ensures Held(s.b, a, SLAB_ORDER) && ChainOk(s.slabs[a]) && s.slabs[a].cls < CLASSES && Pow2(SLAB_ORDER) == 32
  {
    hide Inv, Sorted;
    assert Pow2(5) == 32;
  }

  /** Handing out another chunk leaves every slab's chunk alone, and the new one is not a slab's. */
  lemma SlabsSurviveTake(s: State, t: BuddySpec.State, a: nat, k: nat)
    requires SlabsOk(s) && Handed(s.b, t, a, k) && a in t.own
    ensures SlabsOk(s.(b := t)) && a !in s.slabs
  {
  }

  lemma SlabsSurviveFree(s: State, t: BuddySpec.State, a: nat)
    requires SlabsOk(s) && Handed(t, s.b, a, SLAB_ORDER) && a in s.slabs
    ensures SlabsOk(s.(b := t, slabs := s.slabs - {a}))
  {
    forall x | x in s.slabs - {a} ensures Held(t, x, SLAB_ORDER) {
      assert Held(s.b, x, SLAB_ORDER);
    }
  }

  /** t is s with slab a of class c changed, added or dropped, and of the lists at most a's place in those of class c. */
  ghost predicate Touches(s: State, t: State, a: nat, c: nat) {
    && c < CLASSES && |s.current| == |s.partial| == |t.current| == |t.partial| == CLASSES
    && t.slabs - {a} == s.slabs - {a}
    && t.current == s.current[c := t.current[c]] && t.partial == s.partial[c := t.partial[c]]
    && (t.current[c] == s.current[c] || (s.current[c] in {None, Some(a)} && t.current[c] in {None, Some(a)}))
    && (forall x: nat | x != a :: x in t.partial[c] <==> x in s.partial[c])
    && Distinct(t.partial[c])
  }

  /** Slab a itself is where its chain says it should be. */
  ghost predicate InPlace(t: State, a: nat)
    requires |t.current| == |t.partial| == CLASSES
  {
    && (forall c | 0 <= c < CLASSES && t.current[c] == Some(a) :: a in t.slabs && t.slabs[a].cls == c && t.slabs[a].free != [])
    && (forall c | 0 <= c < CLASSES && a in t.partial[c] ::
          a in t.slabs && t.slabs[a].cls == c && 1 <= |t.slabs[a].free| <= Blocks(c) - 2 && t.current[c] != Some(a))
    && (a in t.slabs && !IsCurrent(t, a) && !IsPartial(t, a) ==> t.slabs[a].free == [])
  }

  /** s and t agree on slab x: on its chain, and on whether it is current or on a partial list. */
  ghost predicate SameSlab(s: State, t: State, x: nat) {
    && (x in t.slabs <==> x in s.slabs) && IsCurrent(t, x) == IsCurrent(s, x) && IsPartial(t, x) == IsPartial(s, x)
    && (x in s.slabs ==> t.slabs[x] == s.slabs[x])
  }

  lemma UntouchedSame(s: State, t: State, a: nat, c: nat, x: nat)
    requires Touches(s, t, a, c) && x != a
    ensures SameSlab(s, t, x)
  {
    hide Distinct;
    assert x in t.slabs - {a} <==> x in s.slabs - {a};
    if x in s.slabs { assert (t.slabs - {a})[x] == (s.slabs - {a})[x]; }
  }

  lemma CurrentLocal(s: State, t: State, a: nat, c: nat)
    requires CurrentOk(s) && Touches(s, t, a, c) && InPlace(t, a)
    ensures CurrentOk(t)
  {
    hide Distinct, Blocks, IsCurrent, IsPartial;
    forall d | 0 <= d < CLASSES && t.current[d].Some?
      ensures var x := t.current[d].value; x in t.slabs && t.slabs[x].cls == d && t.slabs[x].free != []
    {
      var x := t.current[d].value;
      if x != a { UntouchedSame(s, t, a, c, x); }
    }
  }

  lemma PartialLocal(s: State, t: State, a: nat, c: nat)
    requires PartialOk(s) && Touches(s, t, a, c) && InPlace(t, a)
    ensures PartialOk(t)
  {
    hide Distinct, Blocks;
    forall d, x: nat | 0 <= d < CLASSES && x in t.partial[d]
      ensures x in t.slabs && t.slabs[x].cls == d && 1 <= |t.slabs[x].free| <= Blocks(d) - 2 && !IsCurrent(t, x)
    {
      if x != a {
        assert x in s.partial[d];
        UntouchedSame(s, t, a, c, x);
      }
    }
  }

  lemma UnlistedLocal(s: State, t: State, a: nat, c: nat)
    requires Unlisted(s) && Touches(s, t, a, c) && InPlace(t, a)
    ensures Unlisted(t)
  {
    hide Distinct, Blocks, IsCurrent, IsPartial;
    forall x | x in t.slabs && !IsCurrent(t, x) && !IsPartial(t, x) ensures t.slabs[x].free == [] {
      if x != a { UntouchedSame(s, t, a, c, x); }
    }
  }

  /** A change to one slab has to be checked for that slab only. */
  lemma SortedLocal(s: State, t: State, a: nat, c: nat)
    requires Sorted(s) && Touches(s, t, a, c) && InPlace(t, a)
    ensures Sorted(t)
  {
    hide CurrentOk, PartialOk, Unlisted, Touches, InPlace;
    TouchedShape(s, t, a, c);
    CurrentLocal(s, t, a, c);
    PartialLocal(s, t, a, c);
    UnlistedLocal(s, t, a, c);
  }

  lemma TouchedShape(s: State, t: State, a: nat, c: nat)
    requires Touches(s, t, a, c)
    ensures |t.current| == |t.partial| == CLASSES
  {
  }

  /** A new slab becomes the current one of a class that had none. */
  lemma AddSorted(s: State, a: nat, l: Slab)
    requires Sorted(s) && a !in s.slabs && l.cls < CLASSES && s.current[l.cls] == None && l.free != []
    ensures Sorted(s.(slabs := s.slabs[a := l], current := s.current[l.cls := Some(a)]))
  {
    var t := s.(slabs := s.slabs[a := l], current := s.current[l.cls := Some(a)]);
    hide Distinct, Blocks;
    SortedLocal(s, t, a, l.cls);
  }

  lemma GrowKeeps(s: State, c: nat, lo: nat, hi: nat)
    requires SInv(s, lo, hi) && c < CLASSES && s.current[c] == None && Grow(s, c).Some?
    ensures SInv(Grow(s, c).value, lo, hi)
  {
    hide Inv, Handed, Sorted, ChainOk, Fresh;
    TakeKeeps(s.b, SLAB_ORDER, lo, hi);
    var r := Take(s.b, SLAB_ORDER);
    SlabsSurviveTake(s, r.s, r.a, SLAB_ORDER);
    FreshOk(c);
    AddSorted(s, r.a, Fresh(c));
    SortedIgnoresBuddy(s.(slabs := s.slabs[r.a := Fresh(c)], current := s.current[c := Some(r.a)]), r.s);
  }

  lemma SortedIgnoresBuddy(s: State, b: BuddySpec.State)
    requires Sorted(s)
    ensures Sorted(s.(b := b))
  {
    var t := s.(b := b);
    assert forall x :: IsCurrent(t, x) == IsCurrent(s, x);
    assert forall x :: IsPartial(t, x) == IsPartial(s, x);
  }

  lemma PromoteTouches(s: State, c: nat)
    requires c < CLASSES && |s.current| == |s.partial| == CLASSES
    requires s.current[c] == None && s.partial[c] != [] && Distinct(s.partial[c])
    ensures Touches(s, FromPartial(s, c), s.partial[c][0], c)
  {
    assert s.partial[c] == [s.partial[c][0]] + s.partial[c][1..];
  }

  lemma PromoteInPlace(s: State, c: nat)
    requires Sorted(s) && c < CLASSES && s.current[c] == None && s.partial[c] != []
    ensures Distinct(s.partial[c]) && InPlace(FromPartial(s, c), s.partial[c][0])
  {
    hide Blocks;
    var h := s.partial[c][0];
    assert h in s.partial[c];
    assert s.partial[c] == [h] + s.partial[c][1..];
  }

  /** Promoting a partial slab (or none) to current, when the class has no current slab. */
  lemma FromPartialSorted(s: State, c: nat)
    requires Sorted(s) && c < CLASSES && s.current[c] == None
    ensures Sorted(FromPartial(s, c))
  {
    hide CurrentOk, PartialOk, Unlisted, Touches, InPlace, Distinct;
    SortedShape(s);
    if s.partial[c] != [] {
      PromoteInPlace(s, c);
      PromoteTouches(s, c);
      SortedLocal(s, FromPartial(s, c), s.partial[c][0], c);
    } else {
      assert FromPartial(s, c) == s;
    }
  }

  lemma SortedShape(s: State)
    requires Sorted(s)
    ensures |s.current| == |s.partial| == CLASSES
  {
  }

  lemma NewCurrentKeeps(s: State, c: nat, lo: nat, hi: nat)
    requires c < CLASSES && |s.current| == CLASSES && SInv(s.(current := s.current[c := None]), lo, hi)
    ensures SInv(NewCurrent(s, c), lo, hi)
  {
    hide Inv, Sorted, ChainOk, Grow;
    var s0 := s.(current := s.current[c := None]);
    assert FromPartial(s, c) == FromPartial(s0, c);
    FromPartialSorted(s0, c);
    var t := FromPartial(s, c);
    if t.current[c] == None && Grow(t, c).Some? {
      GrowKeeps(t, c, lo, hi);
    }
  }

  lemma PopChain(l: Slab)
    requires ChainOk(l) && l.free != []
    ensures ChainOk(l.(free := l.free[1..]))
    ensures l.free[0] !in l.free[1..] && 1 <= l.free[0] < Blocks(l.cls)
    ensures forall i: nat :: i in l.free <==> i == l.free[0] || i in l.free[1..]
  {
    assert l.free == [l.free[0]] + l.free[1..];
  }

  /** Changing the chain of the current slab to another non-empty one. */
  lemma CurrentChainSorted(s: State, a: nat, f: seq<nat>)
    requires Sorted(s) && IsCurrent(s, a) && f != []
    ensures Sorted(s.(slabs := s.slabs[a := s.slabs[a].(free := f)]))
  {
    var t := s.(slabs := s.slabs[a := s.slabs[a].(free := f)]);
    hide Distinct, Blocks;
    SortedLocal(s, t, a, s.slabs[a].cls);
  }

  /** The current slab becomes full and is dropped. */
  lemma CurrentFullSorted(s: State, a: nat)
    requires Sorted(s) && IsCurrent(s, a)
    ensures var c := s.slabs[a].cls;
      Sorted(s.(slabs := s.slabs[a := s.slabs[a].(free := [])], current := s.current[c := None]))
  {
    var c := s.slabs[a].cls;
    var t := s.(slabs := s.slabs[a := s.slabs[a].(free := [])], current := s.current[c := None]);
    hide Distinct, Blocks;
    SortedLocal(s, t, a, s.slabs[a].cls);
  }

  lemma CurrentFacts(s: State, c: nat)
    requires Sorted(s) && c < CLASSES && s.current[c].Some?
    ensures var a := s.current[c].value; IsCurrent(s, a) && s.slabs[a].cls == c && s.slabs[a].free != []
  {
  }

  /** Taking the first block of the current slab keeps the invariant. */
  lemma TakeBlockKeeps(s: State, c: nat, lo: nat, hi: nat)
    requires SInv(s, lo, hi) && c < CLASSES && s.current[c].Some?
    ensures s.current[c].value in s.slabs && s.slabs[s.current[c].value].free != []
    ensures SInv(TakeBlock(s, c).s, lo, hi)
  {
    CurrentFacts(s, c);
    hide Inv, Sorted, ChainOk, NewCurrent;
    var a := s.current[c].value;
    var l := s.slabs[a];
    PopChain(l);
    var t := s.(slabs := s.slabs[a := l.(free := l.free[1..])]);
    if l.free[1..] == [] {
      CurrentFullSorted(s, a);
      NewCurrentKeeps(t, c, lo, hi);
    } else {
      CurrentChainSorted(s, a, l.free[1..]);
    }
  }

  /** __slab_alloc keeps the invariant, also when it runs out of memory half-way. */
  lemma AllocKeeps(s: State, c: nat, lo: nat, hi: nat)
    requires SInv(s, lo, hi) && c < CLASSES
    ensures SInv(Alloc(s, c, lo, hi).s, lo, hi)
  {
    hide Inv, SlabsOk, Sorted, NewCurrent;
    if s.current[c].Some? {
      TakeBlockKeeps(s, c, lo, hi);
    } else if Grow(s, c).Some? {
      GrowKeeps(s, c, lo, hi);
      TakeBlockKeeps(Grow(s, c).value, c, lo, hi);
    }
  }

  /** Block i of slab a is handed out. */
  predicate Outstanding(s: State, a: nat, i: nat) {
    a in s.slabs && 1 <= i < Blocks(s.slabs[a].cls) && i !in s.slabs[a].free
  }

  lemma PushChain(l: Slab, i: nat)
    requires ChainOk(l) && 1 <= i < Blocks(l.cls) && i !in l.free
    ensures ChainOk(l.(free := [i] + l.free))
  {
  }

  /** A chain never holds more than total-1 blocks, and one that long holds them all. */
  lemma ChainBound(l: Slab)
    requires ChainOk(l)
    ensures |l.free| <= Blocks(l.cls) - 1
    ensures |l.free| == Blocks(l.cls) - 1 ==> forall i: nat | 1 <= i < Blocks(l.cls) :: i in l.free
  {
    ClassSizes(l.cls);
    var n := Blocks(l.cls) - 1;
    var f := Elements(l.free);
    DistinctSize(l.free);
    IntervalSize(1, n);
    forall i | i in f ensures i in Interval(1, n) {
      var j :| 0 <= j < |l.free| && l.free[j] == i;
    }
    SubsetSize(f, Interval(1, n));
    if |l.free| == n {
      forall i: nat | 1 <= i < Blocks(l.cls) ensures i in l.free {
        assert Between(i, 1, n);
        assert i in Interval(1, n);
      }
    }
  }

  function Elements(xs: seq<nat>): set<nat> {
    set i | i in xs
  }

  lemma {:induction false} DistinctSize(xs: seq<nat>)
    requires Distinct(xs)
    ensures |Elements(xs)| == |xs|
    decreases |xs|
  {
    if xs != [] {
      DistinctSize(xs[1..]);
      assert xs == [xs[0]] + xs[1..];
      assert Elements(xs) == {xs[0]} + Elements(xs[1..]);
    }
  }

  /** A full slab gets its first block back and goes to the end of the partial list. */
  lemma FullToPartialSorted(s: State, a: nat, i: nat)
    requires Sorted(s) && a in s.slabs && s.slabs[a].cls < CLASSES && s.slabs[a].free == [] && Blocks(s.slabs[a].cls) >= 3
    ensures var c := s.slabs[a].cls; var t := PutBlock(s, a, i);
      !IsCurrent(s, a) && Sorted(t.(partial := t.partial[c := t.partial[c] + [a]]))
  {
    var c := s.slabs[a].cls;
    var t := PutBlock(s, a, i);
    var u := t.(partial := t.partial[c := t.partial[c] + [a]]);
    hide Blocks;
    assert a !in s.partial[c];
    SortedLocal(s, u, a, c);
  }

  /** A block back to a slab that stays where it is. */
  lemma MiddleSorted(s: State, a: nat, f: seq<nat>)
    requires Sorted(s) && a in s.slabs && s.slabs[a].cls < CLASSES && s.slabs[a].free != []
    requires 1 <= |f| <= Blocks(s.slabs[a].cls) - 2
    ensures Sorted(s.(slabs := s.slabs[a := s.slabs[a].(free := f)]))
  {
    var t := s.(slabs := s.slabs[a := s.slabs[a].(free := f)]);
    hide Distinct, Blocks;
    SortedLocal(s, t, a, s.slabs[a].cls);
  }

  lemma DropCurrentSorted(s: State, a: nat)
    requires Sorted(s) && IsCurrent(s, a)
    ensures Sorted(s.(slabs := s.slabs - {a}, current := s.current[s.slabs[a].cls := None]))
  {
    var t := s.(slabs := s.slabs - {a}, current := s.current[s.slabs[a].cls := None]);
    hide Distinct, Blocks;
    SortedLocal(s, t, a, s.slabs[a].cls);
  }

  lemma DropPartialSorted(s: State, a: nat)
    requires Sorted(s) && a in s.slabs && s.slabs[a].cls < CLASSES && s.slabs[a].free != [] && !IsCurrent(s, a)
    ensures var c := s.slabs[a].cls;
      a in s.partial[c] && Sorted(s.(slabs := s.slabs - {a}, partial := s.partial[c := Remove(s.partial[c], a)]))
  {
    var c := s.slabs[a].cls;
    assert IsPartial(s, a);
    RemoveFacts(s.partial[c], a);
    hide Remove, Distinct, Blocks;
    var t := s.(slabs := s.slabs - {a}, partial := s.partial[c := Remove(s.partial[c], a)]);
    SortedLocal(s, t, a, c);
  }

  /** Giving a whole slab back: the invariant of what is left. */
  lemma WholeSlabKeeps(s: State, a: nat, i: nat, lo: nat, hi: nat)
    requires SInv(s, lo, hi) && Outstanding(s, a, i) && |s.slabs[a].free| == Blocks(s.slabs[a].cls) - 2
    ensures a in s.b.own && s.b.own[a].order <= TOP && SInv(FreeBlock(s, a, i), lo, hi)
  {
    hide Inv, Sorted, Handed, Free, SlabsOk, Pow2, Remove, ChainOk;
    SlabFacts(s, a, lo, hi);
    var c := s.slabs[a].cls;
    ClassSizes(c);
    FreeKeeps(s.b, a, SLAB_ORDER, lo, hi);
    var b' := Free(s.b, a);
    SlabsSurviveFree(s, b', a);
    if IsCurrent(s, a) {
      DropCurrentSorted(s, a);
      var u := s.(slabs := s.slabs - {a}, current := s.current[c := None]);
      SortedIgnoresBuddy(u, b');
      FromPartialSorted(u.(b := b'), c);
      assert PutBlock(s, a, i).slabs - {a} == s.slabs - {a};
      WholeShape(s, a, i);
      SlabsOkLists(s.(b := b', slabs := s.slabs - {a}), FreeBlock(s, a, i));
    } else {
      DropPartialSorted(s, a);
      var u := s.(slabs := s.slabs - {a}, partial := s.partial[c := Remove(s.partial[c], a)]);
      SortedIgnoresBuddy(u, b');
      assert PutBlock(s, a, i).slabs - {a} == s.slabs - {a};
      WholeShape(s, a, i);
      SlabsOkLists(s.(b := b', slabs := s.slabs - {a}), FreeBlock(s, a, i));
    }
  }

  lemma SlabsOkLists(s: State, t: State)
    requires SlabsOk(s) && t.b == s.b && t.slabs == s.slabs
    ensures SlabsOk(t)
  {
  }

  /** FreeBlock of the last outstanding block, written without the intermediate chain. */
  lemma WholeShape(s: State, a: nat, i: nat)
    requires a in s.slabs && s.slabs[a].cls < |s.current| && s.slabs[a].cls < |s.partial|
    requires |s.b.lists| == ORDERS && a in s.b.own && s.b.own[a].order <= TOP
    requires |s.slabs[a].free| == Blocks(s.slabs[a].cls) - 2 && Blocks(s.slabs[a].cls) > 2
    ensures var c := s.slabs[a].cls; var b' := Free(s.b, a);
      FreeBlock(s, a, i) ==
        if s.current[c] == Some(a) then
          FromPartial(s.(b := b', slabs := s.slabs - {a}, current := s.current[c := None]), c)
        else if a in s.partial[c] then
          s.(b := b', slabs := s.slabs - {a}, partial := s.partial[c := Remove(s.partial[c], a)])
        else s.(b := b', slabs := s.slabs - {a})
  {
    hide Free, Remove, Pow2;
    assert PutBlock(s, a, i).slabs - {a} == s.slabs - {a};
  }

  /** __slab_free of a block that is out keeps the invariant. */
  lemma FreeBlockKeeps(s: State, a: nat, i: nat, lo: nat, hi: nat)
    requires SInv(s, lo, hi) && Outstanding(s, a, i)
    ensures a in s.b.own && s.b.own[a].order <= TOP && SInv(FreeBlock(s, a, i), lo, hi)
  {
    var l := s.slabs[a];
    assert Held(s.b, a, SLAB_ORDER) && ChainOk(l);
    ClassSizes(l.cls);
    PushChain(l, i);
    ChainBound(l.(free := [i] + l.free));
    if |l.free| == Blocks(l.cls) - 2 {
      WholeSlabKeeps(s, a, i, lo, hi);
    } else {
      hide Inv, Sorted, Pow2;
      if l.free == [] {
        FullToPartialSorted(s, a, i);
      } else {
        MiddleSorted(s, a, [i] + l.free);
      }
      SlabsOkPut(s, a, i);
      SlabsOkLists(PutBlock(s, a, i), FreeBlock(s, a, i));
    }
  }

  lemma SlabsOkPut(s: State, a: nat, i: nat)
    requires SlabsOk(s) && Outstanding(s, a, i)
    ensures SlabsOk(PutBlock(s, a, i))
  {
    PushChain(s.slabs[a], i);
  }

  // ---------- exactly what an allocation and a free do ----------

  /** The chain holds the blocks from first to the last one, in order. */
  ghost predicate Ascending(l: Slab, first: nat) {
    |l.free| + first == Blocks(l.cls) && forall j | 0 <= j < |l.free| :: l.free[j] == first + j
  }

  /** Between s and t nothing of class c but its current slab changed hands: same pages, same slabs. */
  ghost predicate OnlyLists(s: State, t: State) {
    t.b == s.b && t.slabs.Keys == s.slabs.Keys
  }

  /** 32 pages of the buddy system became slab n of class c. */
  ghost predicate NewSlab(s: State, t: State, n: nat, c: nat)
    requires |s.b.lists| == ORDERS
  {
    && Take(s.b, SLAB_ORDER) == Got(t.b, n) && n !in s.slabs
    && t.slabs.Keys == s.slabs.Keys + {n} && t.slabs[n].cls == c
  }

  /** Slab a lost the first block of its chain, the other slabs of s nothing. */
  ghost predicate FirstGone(s: State, t: State, a: nat)
    requires a in s.slabs && s.slabs[a].free != []
  {
    && a in t.slabs && t.slabs[a].cls == s.slabs[a].cls && t.slabs[a].free == s.slabs[a].free[1..]
    && forall x | x in s.slabs && x != a :: x in t.slabs && t.slabs[x] == s.slabs[x]
  }

  ghost predicate RoomForSlab(b: BuddySpec.State)
    requires |b.lists| == ORDERS
  {
    exists j :: SLAB_ORDER <= j < ORDERS && b.lists[j] != []
  }

  /** What becomes of the current slab of class c once its last block is gone: the first partial slab, else a new slab, else none. */
  ghost predicate Replaced(s: State, t: State, c: nat)
    requires |s.b.lists| == ORDERS && c < |s.current| && c < |s.partial|
  {
    if s.partial[c] != [] then
      OnlyLists(s, t) && t.current == s.current[c := Some(s.partial[c][0])] && t.partial == s.partial[c := s.partial[c][1..]]
    else if RoomForSlab(s.b) then
      && t.partial == s.partial && |t.current| == |s.current| && t.current[c].Some? && t.current == s.current[c := t.current[c]]
      && var n := t.current[c].value; NewSlab(s, t, n, c) && Ascending(t.slabs[n], 1)
    else
      OnlyLists(s, t) && t.current == s.current[c := None] && t.partial == s.partial
  }

  lemma TakeIff(s: State, lo: nat, hi: nat)
    requires SInv(s, lo, hi)
    ensures Take(s.b, SLAB_ORDER).Got? <==> RoomForSlab(s.b)
    ensures Take(s.b, SLAB_ORDER).Got? ==> Take(s.b, SLAB_ORDER).a !in s.slabs
  {
    hide Take, Sorted, Tiling, ListsAgree, NoPair;
    TakeTotal(s.b, SLAB_ORDER, lo, hi);
    TakeKeeps(s.b, SLAB_ORDER, lo, hi);
    if Take(s.b, SLAB_ORDER).Got? { SlabsSurviveTake(s, Take(s.b, SLAB_ORDER).s, Take(s.b, SLAB_ORDER).a, SLAB_ORDER); }
  }

  lemma FreshAscends(c: nat)
    requires c < CLASSES
    ensures Ascending(Fresh(c), 1) && Fresh(c).cls == c && |Fresh(c).free| >= 2
  {
    ClassSizes(c);
  }

  lemma GrowIs(s: State, c: nat, lo: nat, hi: nat)
    requires SInv(s, lo, hi) && c < CLASSES
    ensures Grow(s, c).Some? <==> RoomForSlab(s.b)
    ensures Grow(s, c).Some? ==> var t := Grow(s, c).value; var n := Take(s.b, SLAB_ORDER).a;
      NewSlab(s, t, n, c) && t.slabs == s.slabs[n := Fresh(c)] && t.current == s.current[c := Some(n)] && t.partial == s.partial
  {
    TakeIff(s, lo, hi);
    FreshAscends(c);
    hide Inv, Sorted, SlabsOk, Take, Fresh;
  }

  /** set_new_current_slab after the last block of the current slab a. */
  lemma LastReplaced(s: State, c: nat, a: nat, lo: nat, hi: nat)
    requires SInv(s, lo, hi) && c < CLASSES && s.current[c] == Some(a) && a in s.slabs && |s.slabs[a].free| == 1 && s.slabs[a].cls == c
    ensures var t := s.(slabs := s.slabs[a := s.slabs[a].(free := [])]);
      Replaced(s, NewCurrent(t, c), c) && FirstGone(s, NewCurrent(t, c), a)
  {
    hide Inv, Sorted, ChainOk, Grow, Take, RoomForSlab, Fresh, Ascending;
    var t := s.(slabs := s.slabs[a := s.slabs[a].(free := [])]);
    assert t.slabs.Keys == s.slabs.Keys;
    assert s.slabs[a].free[1..] == [];
    CurrentFullSorted(s, a);
    EmptiedChain(s, a, s.current[c := None]);
    var u := t.(current := t.current[c := None]);
    FreshAscends(c);
    hide SlabsOk;
    GrowIs(u, c, lo, hi);
  }

  lemma EmptiedChain(s: State, a: nat, cur: seq<Option<nat>>)
    requires SlabsOk(s) && a in s.slabs
    ensures SlabsOk(s.(slabs := s.slabs[a := s.slabs[a].(free := [])], current := cur))
  {
  }

  /** __slab_alloc while the class has a current slab: its first block goes out, and only a last block touches anything else. */
  lemma AllocCurrent(s: State, c: nat, lo: nat, hi: nat)
    requires SInv(s, lo, hi) && c < CLASSES && s.current[c].Some?
    ensures s.current[c].value in s.slabs && s.slabs[s.current[c].value].free != []
    ensures var a := s.current[c].value; var r := Alloc(s, c, lo, hi);
      && r.Block? && r.a == a && r.i == s.slabs[a].free[0] && FirstGone(s, r.s, a)
      && if |s.slabs[a].free| > 1 then OnlyLists(s, r.s) && r.s.current == s.current && r.s.partial == s.partial
         else Replaced(s, r.s, c)
  {
    hide Inv, Sorted, SlabsOk, NewCurrent, Replaced;
    CurrentFacts(s, c);
    var a := s.current[c].value;
    if |s.slabs[a].free| == 1 {
      assert s.slabs[a].free[1..] == [];
      LastReplaced(s, c, a, lo, hi);
    } else {
      assert s.slabs[a := s.slabs[a].(free := s.slabs[a].free[1..])].Keys == s.slabs.Keys;
    }
  }

  /** __slab_alloc without a current slab: block 1 of a new slab goes out, whose other blocks form the chain; out of memory
      exactly when there is no room for one. */
  lemma AllocNew(s: State, c: nat, lo: nat, hi: nat)
    requires SInv(s, lo, hi) && c < CLASSES && s.current[c] == None
    ensures var r := Alloc(s, c, lo, hi);
      if RoomForSlab(s.b) then
        && r.Block? && r.i == 1 && NewSlab(s, r.s, r.a, c) && Ascending(r.s.slabs[r.a], 2)
        && (forall x | x in s.slabs :: r.s.slabs[x] == s.slabs[x])
        && r.s.current == s.current[c := Some(r.a)] && r.s.partial == s.partial
      else r == OutOfMemory(s)
  {
    hide Inv, Sorted, SlabsOk, Take, Grow, Fresh, RoomForSlab, Blocks;
    GrowIs(s, c, lo, hi);
    FreshAscends(c);
    if Grow(s, c).Some? {
      var f := Fresh(c).free;
      assert f[0] == 1 && forall j | 0 <= j < |f[1..]| :: f[1..][j] == 2 + j;
    }
  }

  /** __slab_free: what happens to the slab, the lists and the pages, by the number of free blocks before it. */
  lemma FreeExact(s: State, a: nat, i: nat, lo: nat, hi: nat)
    requires SInv(s, lo, hi) && Outstanding(s, a, i)
    ensures a in s.b.own && s.b.own[a].order <= TOP
    ensures var l := s.slabs[a]; var c := l.cls; var t := FreeBlock(s, a, i);
      && c < CLASSES
      && if |l.free| < Blocks(c) - 2 then
           && t.b == s.b && t.slabs == s.slabs[a := Slab(c, [i] + l.free)] && t.current == s.current
           && t.partial == if l.free == [] then s.partial[c := s.partial[c] + [a]] else s.partial
         else
           && t.b == Free(s.b, a) && t.slabs == s.slabs - {a}
           && if s.current[c] != Some(a) then
                && t.current == s.current && |t.partial| == CLASSES && t.partial == s.partial[c := t.partial[c]]
                && Removed(s.partial[c], t.partial[c], a)
              else if s.partial[c] == [] then t.current == s.current[c := None] && t.partial == s.partial
              else t.current == s.current[c := Some(s.partial[c][0])] && t.partial == s.partial[c := s.partial[c][1..]]
  {
    SlabFacts(s, a, lo, hi);
    var l := s.slabs[a];
    var c := l.cls;
    ClassSizes(c);
    PushChain(l, i);
    ChainBound(l.(free := [i] + l.free));
    if l.free != [] { ListedSomewhere(s, a); }
    hide Inv, Sorted, SlabsOk, ChainOk, Free, Remove, Removed, Blocks;
    if |l.free| == Blocks(c) - 2 {
      WholeShape(s, a, i);
      if s.current[c] != Some(a) { RemoveIs(s.partial[c], a); }
    }
  }

  /** A slab with a free block is current or on its partial list. */
  lemma ListedSomewhere(s: State, a: nat)
    requires Sorted(s) && a in s.slabs && s.slabs[a].free != [] && s.slabs[a].cls < CLASSES
    ensures s.current[s.slabs[a].cls] == Some(a) || a in s.partial[s.slabs[a].cls]
  {
  }
}
