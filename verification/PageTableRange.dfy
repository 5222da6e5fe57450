/** Exactly when a range can be mapped, how many tables that takes, and what it means for addresses. */
module PageTableRange {
  import opened Dyadic
  import opened BuddySpec
  import opened BuddyLaws
  import opened BuddyRuns
  import opened Kernel
  import opened PageTableSpec
  import opened PageTableLaws

  // ---------- which tables a walk gets to ----------

  /** The table of level l that the walk of v from table t of the given level gets to. */
  function TableAt(mem: Mem, t: nat, level: nat, v: nat, l: nat): Option<nat>
    decreases 3 - level
  {
    if l <= level || level >= 3 then Some(t)
    else if t !in mem || |mem[t]| != ENTRIES then None
    else match StepAt(mem, t, Index(v, level))
      case Table(n) => TableAt(mem, n, level + 1, v, l)
      case _ => None
  }

  predicate Reaches(mem: Mem, root: nat, v: nat, l: nat) {
    TableAt(mem, root, 0, v, l).Some?
  }

  lemma PrefixStep(v: nat, l: nat)
    ensures Prefix(v, l + 1) == Prefix(v, l) * 512 + Index(v, l)
  {
  }

  lemma DigitsUnique(a: nat, i: nat, b: nat, j: nat)
    requires a * 512 + i == b * 512 + j && i < 512 && j < 512
    ensures a == b && i == j
  {
  }

  /** A prefix determines the indices it is made of. */
  lemma {:induction false} PrefixIndices(v: nat, w: nat, l: nat, j: nat)
    requires Prefix(v, l) == Prefix(w, l) && j < l
    ensures Index(v, j) == Index(w, j) && Prefix(v, j) == Prefix(w, j)
    decreases l
  {
    hide Index, Prefix;
    PrefixStep(v, l - 1);
    PrefixStep(w, l - 1);
    DigitsUnique(Prefix(v, l - 1), Index(v, l - 1), Prefix(w, l - 1), Index(w, l - 1));
    if j < l - 1 { PrefixIndices(v, w, l - 1, j); }
  }

  /** How far a walk gets depends on the prefix only. */
  lemma {:induction false} TableAtPrefix(mem: Mem, t: nat, level: nat, v: nat, w: nat, l: nat)
    requires Prefix(v, l) == Prefix(w, l)
    ensures TableAt(mem, t, level, v, l) == TableAt(mem, t, level, w, l)
    decreases 3 - level
  {
    hide Index, Prefix, StepAt;
    if level < l && level < 3 && t in mem && |mem[t]| == ENTRIES {
      PrefixIndices(v, w, l, level);
      if StepAt(mem, t, Index(v, level)).Table? {
        TableAtPrefix(mem, StepAt(mem, t, Index(v, level)).t, level + 1, v, w, l);
      }
    }
  }

  /** In a tree the table a walk gets to serves the walk's prefix. */
  lemma {:induction false} TableAtLoc(mem: Mem, root: nat, loc: map<nat, Loc>, t: nat, level: nat, v: nat, l: nat)
    requires Tree(mem, root, loc) && t in mem && loc[t] == Loc(level, Prefix(v, level)) && level <= l <= 3
    requires TableAt(mem, t, level, v, l).Some?
    ensures var x := TableAt(mem, t, level, v, l).value; x in mem && x in loc && loc[x] == Loc(l, Prefix(v, l))
    decreases 3 - level
  {
    hide Index, Prefix, IsValid, IsTable, Next;
    if level < l {
      PrefixStep(v, level);
      assert EntryOk(mem, loc, t, Index(v, level));
      TableAtLoc(mem, root, loc, Next(mem[t][Index(v, level)]), level + 1, v, l);
    }
  }

  lemma {:induction false} TableAtStep(mem: Mem, t: nat, level: nat, v: nat, l: nat, x: nat, y: nat)
    requires level <= l < 3 && TableAt(mem, t, level, v, l) == Some(x)
    requires x in mem && |mem[x]| == ENTRIES && StepAt(mem, x, Index(v, l)) == Table(y)
    ensures TableAt(mem, t, level, v, l + 1) == Some(y)
    decreases 3 - level
  {
    hide Index, StepAt;
    if level < l {
      TableAtStep(mem, StepAt(mem, t, Index(v, level)).t, level + 1, v, l, x, y);
    }
  }

  // ---------- what a descent adds ----------

  /** The walks of mem' get as far as those of mem, except that tables of level `lo` + 1 up to `l1` now serve v's prefixes. */
  ghost predicate Opens(mem: Mem, mem': Mem, root: nat, v: nat, l0: nat, l1: nat) {
    forall w: nat, l: nat | l <= 3 ::
      Reaches(mem', root, w, l) <==> Reaches(mem, root, w, l) || (l0 < l <= l1 && Prefix(w, l) == Prefix(v, l))
  }

  /** Hanging a table under the empty entry (t, i) lets exactly the walks through that entry get one level further. */
  lemma {:induction false} HungTableAt(mem: Mem, mem': Mem, root: nat, loc: map<nat, Loc>, t: nat, i: nat, n: nat,
                                       x: nat, j: nat, w: nat, l: nat)
    requires Tree(mem, root, loc) && Hung(mem, mem', t, i, n) && x in mem && loc[x].level == j && j <= l <= 3
    ensures
      var r := TableAt(mem, x, j, w, l);
      TableAt(mem', x, j, w, l) ==
        if r.Some? then r
        else if l == loc[t].level + 1 && TableAt(mem, x, j, w, l - 1) == Some(t) && Index(w, l - 1) == i then Some(n)
        else None
    decreases 3 - j
  {
    hide IsValid, IsTable, Next, Hung, Index;
    if j < l {
      var i' := Index(w, j);
      assert |mem[x]| == ENTRIES;
      HungAt(mem, mem', t, i, n, x, i');
      assert EntryOk(mem, loc, x, i');
      if x == t && i' == i {
        HungStep(mem, mem', t, i, n);
        HungEmpty(mem, mem', t, i, n);
        HungAt(mem, mem', t, i, n, x, Index(w, j + 1));
      } else if StepAt(mem, x, i').Table? {
        HungTableAt(mem, mem', root, loc, t, i, n, Next(mem[x][i']), j + 1, w, l);
      }
    }
  }

  lemma HungOpens(mem: Mem, mem': Mem, root: nat, loc: map<nat, Loc>, t: nat, level: nat, v: nat, n: nat)
    requires Tree(mem, root, loc) && Hung(mem, mem', t, Index(v, level), n) && level < 3
    requires loc[t] == Loc(level, Prefix(v, level)) && TableAt(mem, root, 0, v, level) == Some(t)
    ensures Opens(mem, mem', root, v, level, level + 1) && TableAt(mem', root, 0, v, level + 1) == Some(n)
  {
    hide Index, Prefix, Hung, TableAt, Tree;
    RootOf(mem, root, loc, v);
    forall w: nat, l: nat | l <= 3
      ensures Reaches(mem', root, w, l) <==>
        Reaches(mem, root, w, l) || (level < l <= level + 1 && Prefix(w, l) == Prefix(v, l))
    {
      HungTableAt(mem, mem', root, loc, t, Index(v, level), n, root, 0, w, l);
      if l == level + 1 { SamePrefixNext(mem, root, loc, t, level, v, w); }
    }
    HungTableAt(mem, mem', root, loc, t, Index(v, level), n, root, 0, v, level + 1);
    HungNotBeyond(mem, mem', root, loc, t, level, v, n);
  }

  lemma RootOf(mem: Mem, root: nat, loc: map<nat, Loc>, v: nat)
    requires Tree(mem, root, loc)
    ensures root in mem && root in loc && loc[root] == Loc(0, 0) && Prefix(v, 0) == 0
  {
  }

  /** A walk is at table t with v's next index exactly when it shares v's longer prefix. */
  lemma SamePrefixNext(mem: Mem, root: nat, loc: map<nat, Loc>, t: nat, level: nat, v: nat, w: nat)
    requires Tree(mem, root, loc) && level < 3 && TableAt(mem, root, 0, v, level) == Some(t)
    ensures TableAt(mem, root, 0, w, level) == Some(t) && Index(w, level) == Index(v, level) <==>
      Prefix(w, level + 1) == Prefix(v, level + 1)
  {
    hide Index, Prefix, TableAt, Tree;
    RootOf(mem, root, loc, v);
    RootOf(mem, root, loc, w);
    PrefixStep(v, level);
    PrefixStep(w, level);
    if TableAt(mem, root, 0, w, level) == Some(t) {
      TableAtLoc(mem, root, loc, root, 0, v, level);
      TableAtLoc(mem, root, loc, root, 0, w, level);
    }
    if Prefix(w, level + 1) == Prefix(v, level + 1) {
      PrefixIndices(v, w, level + 1, level);
      TableAtPrefix(mem, root, 0, v, w, level);
    }
  }

  /** The walk of v stopped at the empty entry. */
  lemma HungNotBeyond(mem: Mem, mem': Mem, root: nat, loc: map<nat, Loc>, t: nat, level: nat, v: nat, n: nat)
    requires Tree(mem, root, loc) && Hung(mem, mem', t, Index(v, level), n) && level < 3
    requires TableAt(mem, root, 0, v, level) == Some(t)
    ensures TableAt(mem, root, 0, v, level + 1) == None
  {
    hide Index, Prefix, Hung, Tree, StepAt, TableAt;
    HungEmpty(mem, mem', t, Index(v, level), n);
    NoStep(mem, root, 0, v, level, t);
  }

  lemma {:induction false} NoStep(mem: Mem, t: nat, level: nat, v: nat, l: nat, x: nat)
    requires level <= l < 3 && TableAt(mem, t, level, v, l) == Some(x) && x in mem && Index(v, l) < |mem[x]|
    requires !StepAt(mem, x, Index(v, l)).Table?
    ensures TableAt(mem, t, level, v, l + 1) == None
    decreases 3 - level
  {
    hide Index, StepAt;
    if level < l {
      NoStep(mem, StepAt(mem, t, Index(v, level)).t, level + 1, v, l, x);
    }
  }

  lemma TableOpens(mem: Mem, root: nat, t: nat, level: nat, v: nat, n: nat)
    requires level < 3 && TableAt(mem, root, 0, v, level) == Some(t)
    requires t in mem && |mem[t]| == ENTRIES && StepAt(mem, t, Index(v, level)) == Table(n)
    ensures Opens(mem, mem, root, v, level, level + 1) && TableAt(mem, root, 0, v, level + 1) == Some(n)
  {
    hide Index, Prefix, StepAt, TableAt;
    TableAtStep(mem, root, 0, v, level, t, n);
    forall w: nat, l: nat | l <= 3
      ensures Reaches(mem, root, w, l) <==>
        Reaches(mem, root, w, l) || (level < l <= level + 1 && Prefix(w, l) == Prefix(v, l))
    {
      if l == level + 1 && Prefix(w, l) == Prefix(v, l) { TableAtPrefix(mem, root, 0, v, w, l); }
    }
  }

  /** get_next_ptp with alloc: the walks that get further are those that share v's longer prefix. */
  lemma DescendOpens(s: Space, root: nat, loc: map<nat, Loc>, lo: nat, hi: nat, t: nat, level: nat, v: nat)
    requires PInv(s, root, loc, lo, hi) && t in s.mem && level < 3 && t in loc && loc[t] == Loc(level, Prefix(v, level))
    requires TableAt(s.mem, root, 0, v, level) == Some(t) && Descend(s, t, Index(v, level)).Down?
    ensures var d := Descend(s, t, Index(v, level));
      Opens(s.mem, d.s.mem, root, v, level, level + 1) && TableAt(d.s.mem, root, 0, v, level + 1) == Some(d.t)
  {
    hide *;
    TreeOf(s, root, loc, lo, hi);
    TreeRowOf(s, root, loc, lo, hi, t);
    DescendCases(s, t, Index(v, level));
    if StepAt(s.mem, t, Index(v, level)).Table? {
      TableOpens(s.mem, root, t, level, v, StepAt(s.mem, t, Index(v, level)).t);
    } else {
      DescendShape(s, root, loc, lo, hi, t, Index(v, level));
      HungOpens(s.mem, Descend(s, t, Index(v, level)).s.mem, root, loc, t, level, v, Descend(s, t, Index(v, level)).t);
    }
  }

  lemma TreeOf(s: Space, root: nat, loc: map<nat, Loc>, lo: nat, hi: nat)
    requires PInv(s, root, loc, lo, hi)
    ensures Tree(s.mem, root, loc) && |s.b.lists| == ORDERS
  {
  }

  lemma DescendCases(s: Space, t: nat, i: nat)
    requires |s.b.lists| == ORDERS && t in s.mem && i < |s.mem[t]|
    ensures StepAt(s.mem, t, i).Table? ==> Descend(s, t, i) == Down(s, StepAt(s.mem, t, i).t)
    ensures StepAt(s.mem, t, i).Block? ==> Descend(s, t, i) == Halted
  {
  }

  lemma OpensTrans(mem: Mem, mem1: Mem, mem2: Mem, root: nat, v: nat, a: nat, b: nat, c: nat)
    requires a <= b <= c && Opens(mem, mem1, root, v, a, b) && Opens(mem1, mem2, root, v, b, c)
    ensures Opens(mem, mem2, root, v, a, c)
  {
    hide Reaches, Prefix;
  }

  /** Writing a leaf leaves the tables as they are. */
  lemma {:induction false} LeafTableAt(mem: Mem, root: nat, loc: map<nat, Loc>, t: nat, v: nat, e: nat, x: nat, j: nat, w: nat, l: nat)
    requires Tree(mem, root, loc) && t in mem && loc[t].level == 3 && x in mem && loc[x].level == j && j <= l <= 3
    ensures TableAt(SetLeaf(mem, t, v, e), x, j, w, l) == TableAt(mem, x, j, w, l)
    decreases 3 - j
  {
    hide IsValid, IsTable, Next, Index, SetLeaf;
    assert |mem[t]| == |mem[x]| == ENTRIES;
    if j < l {
      LeafAt(mem, t, v, e, x, Index(w, j));
      assert EntryOk(mem, loc, x, Index(w, j));
      if StepAt(mem, x, Index(w, j)).Table? {
        LeafTableAt(mem, root, loc, t, v, e, Next(mem[x][Index(w, j)]), j + 1, w, l);
      }
    }
  }

  lemma LeafOpens(mem: Mem, mem': Mem, root: nat, loc: map<nat, Loc>, t: nat, v: nat, e: nat)
    requires Tree(mem', root, loc) && t in mem' && loc[t].level == 3 && Opens(mem, mem', root, v, 0, 3)
    ensures |mem'[t]| == ENTRIES && Opens(mem, SetLeaf(mem', t, v, e), root, v, 0, 3)
  {
    hide TableAt, Prefix;
    forall w: nat, l: nat | l <= 3 ensures Reaches(SetLeaf(mem', t, v, e), root, w, l) == Reaches(mem', root, w, l) {
      LeafTableAt(mem', root, loc, t, v, e, root, 0, w, l);
    }
  }

  /** Mapping a page opens up the tables of its three prefixes and no others. */
  lemma MapOneOpens(s: Space, root: nat, loc: map<nat, Loc>, lo: nat, hi: nat, v: nat, pfn: nat, f: Attr)
    requires PInv(s, root, loc, lo, hi)
    ensures |s.b.lists| == ORDERS
    ensures MapOne(s, root, v, pfn, f).Mapped? ==> Opens(s.mem, MapOne(s, root, v, pfn, f).s.mem, root, v, 0, 3)
  {
    hide Inv, Tree, Backed, DescentOk, Descend, Opens, PathTo, Index, SetLeaf, Leaf, Prefix, PInv;
    SpaceShape(s, root, loc, lo, hi);
    RootFacts(s, root, loc, lo, hi);
    PrefixZero(v);
    var d1 := Descend(s, root, Index(v, 0));
    if MapOne(s, root, v, pfn, f).Mapped? {
      var l1 := DescendOk(s, root, loc, lo, hi, root, 0, v);
      DescentFacts(s, root, loc, l1, lo, hi, root, 0, v, d1);
      DescendOpens(s, root, loc, lo, hi, root, 0, v);
      var d2 := Descend(d1.s, d1.t, Index(v, 1));
      var l2 := DescendOk(d1.s, root, l1, lo, hi, d1.t, 1, v);
      DescentFacts(d1.s, root, l1, l2, lo, hi, d1.t, 1, v, d2);
      DescendOpens(d1.s, root, l1, lo, hi, d1.t, 1, v);
      var d3 := Descend(d2.s, d2.t, Index(v, 2));
      var l3 := DescendOk(d2.s, root, l2, lo, hi, d2.t, 2, v);
      DescentFacts(d2.s, root, l2, l3, lo, hi, d2.t, 2, v, d3);
      DescendOpens(d2.s, root, l2, lo, hi, d2.t, 2, v);
      OpensTrans(s.mem, d1.s.mem, d2.s.mem, root, v, 0, 1, 2);
      OpensTrans(s.mem, d2.s.mem, d3.s.mem, root, v, 0, 2, 3);
      TreeOf(d3.s, root, l3, lo, hi);
      LeafOpens(s.mem, d3.s.mem, root, l3, d3.t, v, Leaf(pfn, f));
    }
  }

  // ---------- one page: when it can be mapped ----------

  /** Tables missing on the path of v below table t. */
  function Need(mem: Mem, t: nat, level: nat, v: nat): nat
    decreases 3 - level
  {
    if level >= 3 || t !in mem || |mem[t]| != ENTRIES then 0
    else match StepAt(mem, t, Index(v, level))
      case Missing => 3 - level
      case Block(_) => 0
      case Table(n) => Need(mem, n, level + 1, v)
  }

  /** The descent to level 3 as a recursion over the levels. */
  function DescendAll(s: Space, t: nat, level: nat, v: nat): Descent
    requires |s.b.lists| == ORDERS
    decreases 3 - level
  {
    if level >= 3 then Down(s, t)
    else match Descend(s, t, Index(v, level))
      case Halted => Halted
      case Down(s1, t1) => DescendAll(s1, t1, level + 1, v)
  }

  lemma MapOneIsDescendAll(s: Space, root: nat, loc: map<nat, Loc>, lo: nat, hi: nat, v: nat, pfn: nat, f: Attr)
    requires PInv(s, root, loc, lo, hi)
    ensures |s.b.lists| == ORDERS
    ensures MapOne(s, root, v, pfn, f).Stuck? <==> DescendAll(s, root, 0, v).Halted?
    ensures MapOne(s, root, v, pfn, f).Mapped? ==> MapOne(s, root, v, pfn, f).s.b == DescendAll(s, root, 0, v).s.b
  {
    hide Inv, Tree, Backed, DescentOk, Descend, Index, SetLeaf, Leaf, Prefix, PInv;
    SpaceShape(s, root, loc, lo, hi);
    RootFacts(s, root, loc, lo, hi);
    PrefixZero(v);
    var d1 := Descend(s, root, Index(v, 0));
    if d1.Down? {
      var l1 := DescendOk(s, root, loc, lo, hi, root, 0, v);
      DescentFacts(s, root, loc, l1, lo, hi, root, 0, v, d1);
      var d2 := Descend(d1.s, d1.t, Index(v, 1));
      if d2.Down? {
        var l2 := DescendOk(d1.s, root, l1, lo, hi, d1.t, 1, v);
        DescentFacts(d1.s, root, l1, l2, lo, hi, d1.t, 1, v, d2);
        var d3 := Descend(d2.s, d2.t, Index(v, 2));
        if d3.Down? {
          var l3 := DescendOk(d2.s, root, l2, lo, hi, d2.t, 2, v);
          DescentFacts(d2.s, root, l2, l3, lo, hi, d2.t, 2, v, d3);
          TreeRowOf(d3.s, root, l3, lo, hi, d3.t);
        }
      }
    }
  }

  /** Take at order 0 fails exactly when no page is free. */
  lemma TakeNoPage(b: BuddySpec.State, lo: nat, hi: nat)
    requires Inv(b, lo, hi)
    ensures Take(b, 0).NoPage? <==> Total(b.lists, 0) == 0
  {
    TakeTotal(b, 0, lo, hi);
    if Take(b, 0).NoPage? { TotalEmpty(b.lists, 0); }
  }

  lemma DescendIff(s: Space, root: nat, loc: map<nat, Loc>, lo: nat, hi: nat, t: nat, i: nat)
    requires PInv(s, root, loc, lo, hi) && t in s.mem && i < ENTRIES && |s.mem[t]| == ENTRIES
    ensures |s.b.lists| == ORDERS
    ensures Descend(s, t, i).Halted? <==> StepAt(s.mem, t, i).Block? || (StepAt(s.mem, t, i).Missing? && Total(s.b.lists, 0) == 0)
  {
    hide Inv, Tree, Backed, IsValid, IsTable, Next, Handed, Take, Total;
    TakeNoPage(s.b, lo, hi);
    TakeKeeps(s.b, 0, lo, hi);
    var r := Take(s.b, 0);
    if r.Got? {
      InvHeldPages(r.s, r.a, 0, lo, hi);
      assert Pow2(0) == 1;
    }
  }

  /** The zeroed table just hung has nothing below it. */
  lemma HungBelow(mem: Mem, mem': Mem, t: nat, i: nat, n: nat, level: nat, v: nat)
    requires Hung(mem, mem', t, i, n) && level <= 3
    ensures Walk(mem', n, level, v) == NotMapped && Need(mem', n, level, v) == 3 - level
  {
    HungAt(mem, mem', t, i, n, t, Index(v, level));
    hide Hung, Index, IsValid;
  }

  lemma Unfold(s: Space, t: nat, level: nat, v: nat)
    requires |s.b.lists| == ORDERS && t in s.mem && |s.mem[t]| == ENTRIES && level < 3
    ensures DescendAll(s, t, level, v) == match Descend(s, t, Index(v, level))
      case Halted => Halted
      case Down(s1, t1) => DescendAll(s1, t1, level + 1, v)
    ensures match StepAt(s.mem, t, Index(v, level))
      case Missing => Need(s.mem, t, level, v) == 3 - level && Walk(s.mem, t, level, v) == NotMapped
      case Block(e) => Need(s.mem, t, level, v) == 0 && (level > 0 ==> Walk(s.mem, t, level, v) == BlockHit(level, e))
      case Table(n) => Need(s.mem, t, level, v) == Need(s.mem, n, level + 1, v) && Walk(s.mem, t, level, v) == Walk(s.mem, n, level + 1, v)
  {
    hide Index, StepAt, Descend;
  }

  lemma AtBottom(s: Space, t: nat, v: nat)
    requires |s.b.lists| == ORDERS
    ensures DescendAll(s, t, 3, v) == Down(s, t) && Need(s.mem, t, 3, v) == 0 && !Walk(s.mem, t, 3, v).BlockHit?
  {
  }

  lemma LevelZero(s: Space, root: nat, loc: map<nat, Loc>, lo: nat, hi: nat, t: nat, i: nat)
    requires PInv(s, root, loc, lo, hi) && t in s.mem && i < ENTRIES
    ensures t in loc && |s.mem[t]| == ENTRIES && |s.b.lists| == ORDERS
    ensures StepAt(s.mem, t, i).Block? ==> loc[t].level > 0
  {
    assert EntryOk(s.mem, loc, t, i);
  }

  /** The descent stops exactly at a block descriptor or when the free pages do not cover the missing tables. */
  lemma {:induction false} DescendAllIff(s: Space, root: nat, loc: map<nat, Loc>, lo: nat, hi: nat, t: nat, level: nat, v: nat)
    requires PInv(s, root, loc, lo, hi) && t in s.mem && level <= 3 && t in loc && loc[t] == Loc(level, Prefix(v, level))
    ensures |s.b.lists| == ORDERS
    ensures DescendAll(s, t, level, v).Halted? <==>
      Walk(s.mem, t, level, v).BlockHit? || Total(s.b.lists, 0) < Need(s.mem, t, level, v)
    ensures DescendAll(s, t, level, v).Down? ==>
      Total(s.b.lists, 0) == Total(DescendAll(s, t, level, v).s.b.lists, 0) + Need(s.mem, t, level, v)
    decreases 3 - level
  {
    hide *;
    LevelZero(s, root, loc, lo, hi, t, Index(v, level));
    if level == 3 {
      AtBottom(s, t, v);
    } else {
      var i := Index(v, level);
      Unfold(s, t, level, v);
      DescendIff(s, root, loc, lo, hi, t, i);
      if Descend(s, t, i).Down? {
        var d := Descend(s, t, i);
        var loc' := DescendOk(s, root, loc, lo, hi, t, level, v);
        DescentFacts(s, root, loc, loc', lo, hi, t, level, v, d);
        DescendAllIff(d.s, root, loc', lo, hi, d.t, level + 1, v);
        if StepAt(s.mem, t, i).Table? {
          DescendCases(s, t, i);
        } else {
          DescendShape(s, root, loc, lo, hi, t, i);
          HungBelow(s.mem, d.s.mem, t, i, d.t, level + 1, v);
        }
      }
    }
  }

  /** Mapping one page fails exactly when a block descriptor is in the way or too few pages are free for
      the missing tables; otherwise it consumes one page per missing table. */
  lemma MapOneIff(s: Space, root: nat, loc: map<nat, Loc>, lo: nat, hi: nat, v: nat, pfn: nat, f: Attr)
    requires PInv(s, root, loc, lo, hi)
    ensures |s.b.lists| == ORDERS
    ensures MapOne(s, root, v, pfn, f).Stuck? <==>
      Walk(s.mem, root, 0, v).BlockHit? || Total(s.b.lists, 0) < Need(s.mem, root, 0, v)
    ensures MapOne(s, root, v, pfn, f).Mapped? ==>
      Total(s.b.lists, 0) == Total(MapOne(s, root, v, pfn, f).s.b.lists, 0) + Need(s.mem, root, 0, v)
  {
    hide *;
    RootFacts(s, root, loc, lo, hi);
    PrefixZero(v);
    MapOneIsDescendAll(s, root, loc, lo, hi, v, pfn, f);
    DescendAllIff(s, root, loc, lo, hi, root, 0, v);
  }

  /** Need says where the walk stops. */
  lemma {:induction false} NeedIsWhereItStops(mem: Mem, root: nat, loc: map<nat, Loc>, t: nat, level: nat, v: nat, l: nat)
    requires Tree(mem, root, loc) && t in mem && loc[t].level == level && level < l <= 3
    requires !Walk(mem, t, level, v).BlockHit?
    ensures TableAt(mem, t, level, v, l).Some? <==> l + Need(mem, t, level, v) <= 3
    decreases 3 - level
  {
    hide IsValid, IsTable, Next, Index;
    assert EntryOk(mem, loc, t, Index(v, level));
    if StepAt(mem, t, Index(v, level)).Table? {
      var n := StepAt(mem, t, Index(v, level)).t;
      if l == level + 1 {
        NeedBelow(mem, n, level + 1, v);
      } else {
        NeedIsWhereItStops(mem, root, loc, n, level + 1, v, l);
      }
    }
  }

  lemma {:induction false} NeedBelow(mem: Mem, t: nat, level: nat, v: nat)
    requires level <= 3
    ensures Need(mem, t, level, v) <= 3 - level
    decreases 3 - level
  {
    hide Index, StepAt;
    if level < 3 && t in mem && |mem[t]| == ENTRIES && StepAt(mem, t, Index(v, level)).Table? {
      NeedBelow(mem, StepAt(mem, t, Index(v, level)).t, level + 1, v);
    }
  }

  // ---------- a range: when it can be mapped ----------

  /** The walk of page v + k does not get to a table of level l. */
  ghost predicate Lacks(mem: Mem, root: nat, v: nat, k: nat, l: nat) {
    !Reaches(mem, root, v + k, l)
  }

  /** The walk of page v + k ends at a block descriptor. */
  ghost predicate Blocked(mem: Mem, root: nat, v: nat, k: nat) {
    Walk(mem, root, 0, v + k).BlockHit?
  }

  ghost predicate SomeBlocked(mem: Mem, root: nat, v: nat, n: nat) {
    exists k: nat :: k < n && Blocked(mem, root, v, k)
  }

  /** The tables that pages v..v+n need and do not have. */
  ghost function MissingTables(mem: Mem, root: nat, v: nat, n: nat): set<Loc> {
    set k: nat, l: nat | k < n && 1 <= l <= 3 && Lacks(mem, root, v, k, l) :: Loc(l, Prefix(v + k, l))
  }

  /** How many those are. */
  ghost function TablesNeeded(mem: Mem, root: nat, v: nat, n: nat): nat {
    |MissingTables(mem, root, v, n)|
  }

  lemma MissingTablesOne(mem: Mem, root: nat, loc: map<nat, Loc>, v: nat)
    requires Tree(mem, root, loc) && !Walk(mem, root, 0, v).BlockHit?
    ensures TablesNeeded(mem, root, v, 1) == Need(mem, root, 0, v)
  {
    RootOf(mem, root, loc, v);
    hide TableAt, Need, Walk, Tree, Prefix;
    NeedIsWhereItStops(mem, root, loc, root, 0, v, 1);
    NeedIsWhereItStops(mem, root, loc, root, 0, v, 2);
    NeedIsWhereItStops(mem, root, loc, root, 0, v, 3);
    NeedBelow(mem, root, 0, v);
    LacksFrom(mem, root, v, Need(mem, root, 0, v));
  }

  lemma MissingOfPage(mem: Mem, root: nat, v: nat, x: Loc)
    ensures x in MissingTables(mem, root, v, 1) <==>
      1 <= x.level <= 3 && Lacks(mem, root, v, 0, x.level) && x.prefix == Prefix(v, x.level)
  {
    hide Lacks, Prefix;
    if 1 <= x.level <= 3 && Lacks(mem, root, v, 0, x.level) && x.prefix == Prefix(v, x.level) {
      assert x == Loc(x.level, Prefix(v + 0, x.level));
    }
  }

  lemma LacksFrom(mem: Mem, root: nat, v: nat, need: nat)
    requires need <= 3 && forall l: nat | 1 <= l <= 3 :: Lacks(mem, root, v, 0, l) <==> l + need > 3
    ensures |MissingTables(mem, root, v, 1)| == need
  {
    forall x ensures x in MissingTables(mem, root, v, 1) <==> 1 <= x.level <= 3 && x.level + need > 3 && x.prefix == Prefix(v, x.level) {
      MissingOfPage(mem, root, v, x);
    }
    hide *;
    AtMostThree(MissingTables(mem, root, v, 1), need, Prefix(v, 1), Prefix(v, 2), Prefix(v, 3));
  }

  lemma AtMostThree(m: set<Loc>, need: nat, p1: nat, p2: nat, p3: nat)
    requires need <= 3
    requires forall x :: x in m <==> (need > 2 && x == Loc(1, p1)) || (need > 1 && x == Loc(2, p2)) || (need > 0 && x == Loc(3, p3))
    ensures |m| == need
  {
    if need == 0 {
      assert m == {};
    } else if need == 1 {
      assert m == {Loc(3, p3)};
    } else if need == 2 {
      assert m == {Loc(2, p2), Loc(3, p3)};
    } else {
      assert m == {Loc(1, p1), Loc(2, p2), Loc(3, p3)};
    }
  }

  /** Mapping the first page takes its tables off the missing ones and leaves the others missing. */
  lemma MissingTablesStep(mem: Mem, mem': Mem, root: nat, v: nat, n: nat)
    requires n > 0 && Opens(mem, mem', root, v, 0, 3)
    ensures MissingTables(mem, root, v, n) == MissingTables(mem, root, v, 1) + MissingTables(mem', root, v + 1, n - 1)
    ensures MissingTables(mem, root, v, 1) !! MissingTables(mem', root, v + 1, n - 1)
  {
    hide TableAt, Prefix;
    var all, first, rest := MissingTables(mem, root, v, n), MissingTables(mem, root, v, 1), MissingTables(mem', root, v + 1, n - 1);
    forall x ensures x in all ==> x in first || x in rest {
      if x in all {
        var k: nat, l: nat :| k < n && 1 <= l <= 3 && Lacks(mem, root, v, k, l) && x == Loc(l, Prefix(v + k, l));
        if Prefix(v + k, l) == Prefix(v, l) {
          TableAtPrefix(mem, root, 0, v, v + k, l);
          assert Lacks(mem, root, v, 0, l);
        } else {
          assert v + 1 + (k - 1) == v + k;
          assert Lacks(mem', root, v + 1, k - 1, l);
        }
      }
    }
    forall x ensures x in first ==> x in all && x !in rest {
      if x in first {
        var k: nat, l: nat :| k < 1 && 1 <= l <= 3 && Lacks(mem, root, v, k, l) && x == Loc(l, Prefix(v + k, l));
        assert k == 0;
      }
    }
    forall x ensures x in rest ==> x in all {
      if x in rest {
        var k: nat, l: nat :| k < n - 1 && 1 <= l <= 3 && Lacks(mem', root, v + 1, k, l) && x == Loc(l, Prefix(v + 1 + k, l));
        assert v + (k + 1) == v + 1 + k;
        assert Lacks(mem, root, v, k + 1, l);
      }
    }
  }

  lemma MissingCount(mem: Mem, mem': Mem, root: nat, v: nat, n: nat)
    requires n > 0 && Opens(mem, mem', root, v, 0, 3)
    ensures TablesNeeded(mem, root, v, n) == TablesNeeded(mem, root, v, 1) + TablesNeeded(mem', root, v + 1, n - 1)
  {
    MissingTablesStep(mem, mem', root, v, n);
    hide MissingTables, Opens;
  }

  /** Pages that agree in their 36 bits are the same page to a walk. */
  lemma SameIndices(v: nat, w: nat, j: nat)
    requires v % PFN_FIELD == w % PFN_FIELD && j <= 3
    ensures Index(v, j) == Index(w, j)
  {
    PrefixValue(v);
    PrefixValue(w);
    hide Index, Prefix;
    DigitsUnique(Prefix(v, 3), Index(v, 3), Prefix(w, 3), Index(w, 3));
    if j < 3 { PrefixIndices(v, w, 3, j); }
  }

  lemma {:induction false} WalkWraps(mem: Mem, t: nat, level: nat, v: nat, w: nat)
    requires v % PFN_FIELD == w % PFN_FIELD && level <= 3
    ensures Walk(mem, t, level, v) == Walk(mem, t, level, w)
    decreases 3 - level
  {
    hide Index, StepAt, IsValid, Next;
    SameIndices(v, w, level);
    if t in mem && |mem[t]| == ENTRIES && level < 3 {
      match StepAt(mem, t, Index(v, level))
      case Missing =>
      case Block(e) => WalkWraps(mem, Next(e), level + 1, v, w);
      case Table(n) => WalkWraps(mem, n, level + 1, v, w);
    }
  }

  /** Mapping a page neither makes nor removes block descriptors. */
  lemma BlocksKept(s: Space, m: Space, root: nat, v: nat, e: nat, w: nat)
    requires MappedOne(s, m, root, v, e) && !Walk(s.mem, root, 0, v).BlockHit?
    ensures Walk(m.mem, root, 0, w).BlockHit? <==> Walk(s.mem, root, 0, w).BlockHit?
  {
    hide Walk, Accounted;
    if w % PFN_FIELD == v % PFN_FIELD {
      WalkWraps(m.mem, root, 0, w, v);
      WalkWraps(s.mem, root, 0, w, v);
    }
  }

  lemma BlockedStep(s: Space, m: Space, root: nat, v: nat, e: nat, n: nat)
    requires n > 0 && MappedOne(s, m, root, v, e) && !Walk(s.mem, root, 0, v).BlockHit?
    ensures SomeBlocked(s.mem, root, v, n) <==> SomeBlocked(m.mem, root, v + 1, n - 1)
  {
    hide Walk, MappedOne;
    var w := v + 1;
    if k: nat :| k < n && Blocked(s.mem, root, v, k) {
      BlocksKept(s, m, root, v, e, v + k);
      assert k > 0 && w + (k - 1) == v + k;
      assert Blocked(m.mem, root, w, k - 1);
    }
    if k: nat :| k < n - 1 && Blocked(m.mem, root, w, k) {
      BlocksKept(s, m, root, v, e, w + k);
      assert w + k == v + (k + 1);
      assert Blocked(s.mem, root, v, k + 1);
    }
  }

  /** The condition under which the n pages from v can be mapped. */
  ghost predicate Mappable(s: Space, root: nat, v: nat, n: nat) {
    !SomeBlocked(s.mem, root, v, n) && TablesNeeded(s.mem, root, v, n) <= Total(s.b.lists, 0)
  }

  lemma MappableIs(s: Space, root: nat, v: nat, n: nat)
    ensures Mappable(s, root, v, n) <==> !SomeBlocked(s.mem, root, v, n) && TablesNeeded(s.mem, root, v, n) <= Total(s.b.lists, 0)
  {
    hide SomeBlocked, TablesNeeded, Total;
  }

  /** How many table pages there are. */
  function Tables(s: Space): nat { |s.mem| }

  /** The first page of a range cannot be mapped: then neither can the range. */
  lemma FirstStuck(s: Space, root: nat, loc: map<nat, Loc>, lo: nat, hi: nat, v: nat, pfn: nat, n: nat, f: Attr)
    requires PInv(s, root, loc, lo, hi) && n > 0
    ensures |s.b.lists| == ORDERS
    ensures MapOne(s, root, v, pfn, f).Stuck? ==>
      SomeBlocked(s.mem, root, v, n) || Total(s.b.lists, 0) < TablesNeeded(s.mem, root, v, n)
  {
    hide *;
    TreeOf(s, root, loc, lo, hi);
    MapOneIff(s, root, loc, lo, hi, v, pfn, f);
    if Walk(s.mem, root, 0, v).BlockHit? {
      BlockedFirst(s.mem, root, v, n);
    } else {
      MissingTablesOne(s.mem, root, loc, v);
      MissingFirst(s.mem, root, v, n);
    }
  }

  /** The first page can be mapped: what is left to map, and to allocate, behind it. */
  lemma FirstMapped(s: Space, root: nat, loc: map<nat, Loc>, lo: nat, hi: nat, v: nat, pfn: nat, n: nat, f: Attr)
    returns (m: Space, loc': map<nat, Loc>, need: nat)
    requires PInv(s, root, loc, lo, hi) && AttrOk(f) && n > 0 && |s.b.lists| == ORDERS && MapOne(s, root, v, pfn, f).Mapped?
    ensures m == MapOne(s, root, v, pfn, f).s && PInv(m, root, loc', lo, hi) && |m.b.lists| == ORDERS
    ensures SomeBlocked(s.mem, root, v, n) <==> SomeBlocked(m.mem, root, v + 1, n - 1)
    ensures TablesNeeded(s.mem, root, v, n) == need + TablesNeeded(m.mem, root, v + 1, n - 1)
    ensures Total(s.b.lists, 0) == Total(m.b.lists, 0) + need && Tables(m) == Tables(s) + need
  {
    hide *;
    TreeOf(s, root, loc, lo, hi);
    MapOneIff(s, root, loc, lo, hi, v, pfn, f);
    m := MapOne(s, root, v, pfn, f).s;
    need := Need(s.mem, root, 0, v);
    var t1, t2, t3;
    loc', t1, t2, t3 := MapOneOk(s, root, loc, lo, hi, v, pfn, f);
    TreeOf(m, root, loc', lo, hi);
    MapOneOpens(s, root, loc, lo, hi, v, pfn, f);
    MissingTablesOne(s.mem, root, loc, v);
    MissingCount(s.mem, m.mem, root, v, n);
    BlockedStep(s, m, root, v, Leaf(pfn, f), n);
    AccountedOf(s, m, root, v, Leaf(pfn, f));
  }

  /** A range can be mapped exactly when no page of it lies under a block descriptor and the free pages
      cover the missing tables; then it consumes exactly one page per missing table. */
  lemma {:induction false} MapPagesIff(s: Space, root: nat, loc: map<nat, Loc>, lo: nat, hi: nat, v: nat, pfn: nat, n: nat, f: Attr)
    requires PInv(s, root, loc, lo, hi) && AttrOk(f)
    ensures |s.b.lists| == ORDERS
    ensures MapPages(s, root, v, pfn, n, f).Mapped? <==>
      Mappable(s, root, v, n)
    ensures MapPages(s, root, v, pfn, n, f).Mapped? ==>
      var t := MapPages(s, root, v, pfn, n, f).s;
      && Total(s.b.lists, 0) == Total(t.b.lists, 0) + TablesNeeded(s.mem, root, v, n)
      && Tables(t) == Tables(s) + TablesNeeded(s.mem, root, v, n)
    decreases n
  {
    hide *;
    SpaceShape(s, root, loc, lo, hi);
    MapUnfold(s, root, v, pfn, n, f);
    MappableIs(s, root, v, n);
    if n == 0 {
      NothingToMap(s.mem, root, v);
    } else if MapOne(s, root, v, pfn, f).Stuck? {
      FirstStuck(s, root, loc, lo, hi, v, pfn, n, f);
    } else {
      var m, loc', need := FirstMapped(s, root, loc, lo, hi, v, pfn, n, f);
      MappableIs(m, root, v + 1, n - 1);
      MapPagesIff(m, root, loc', lo, hi, v + 1, pfn + 1, n - 1, f);
    }
  }

  lemma AccountedOf(s: Space, m: Space, root: nat, v: nat, e: nat)
    requires MappedOne(s, m, root, v, e)
    ensures Total(s.b.lists, 0) + Tables(s) == Total(m.b.lists, 0) + Tables(m)
  {
  }

  lemma MapUnfold(s: Space, root: nat, v: nat, pfn: nat, n: nat, f: Attr)
    requires |s.b.lists| == ORDERS
    ensures n == 0 ==> MapPages(s, root, v, pfn, n, f) == Mapped(s)
    ensures n > 0 ==> MapPages(s, root, v, pfn, n, f) == match MapOne(s, root, v, pfn, f)
      case Stuck => Stuck
      case Mapped(t) => MapPages(t, root, v + 1, pfn + 1, n - 1, f)
  {
    hide MapOne;
  }

  lemma NothingToMap(mem: Mem, root: nat, v: nat)
    ensures TablesNeeded(mem, root, v, 0) == 0 && !SomeBlocked(mem, root, v, 0)
  {
    assert MissingTables(mem, root, v, 0) == {};
  }

  lemma BlockedFirst(mem: Mem, root: nat, v: nat, n: nat)
    requires n > 0 && Walk(mem, root, 0, v).BlockHit?
    ensures SomeBlocked(mem, root, v, n)
  {
    assert Blocked(mem, root, v, 0);
  }

  lemma MissingFirst(mem: Mem, root: nat, v: nat, n: nat)
    requires n > 0
    ensures TablesNeeded(mem, root, v, 1) <= TablesNeeded(mem, root, v, n)
  {
    hide Lacks, Prefix;
    SubsetSize(MissingTables(mem, root, v, 1), MissingTables(mem, root, v, n));
  }

  // ---------- a range: what it means for addresses ----------

  const ADDRESSES: nat := 0x1_0000_0000_0000  // 2^48

  /** len rounded up to pages. */
  function PageCount(len: nat): nat {
    len / PAGE_SIZE + if len % PAGE_SIZE > 0 then 1 else 0
  }

  /** Byte j of the range translates to byte j from pa on. */
  ghost predicate Translated(mem: Mem, root: nat, va: nat, pa: nat, j: nat) {
    Query(mem, root, va + j) == Some(pa + j)
  }

  /** Byte j of the range translates to byte j from the frame of pa on, in the 48 bits a descriptor holds. */
  ghost predicate FrameByte(mem: Mem, root: nat, va: nat, pa: nat, j: nat) {
    Query(mem, root, va + j) == Some((FrameStart(pa) + j) % ADDRESSES)
  }

  /** Address x is one of the `size` addresses from va, in the 48-bit space. */
  predicate Hits(x: nat, va: nat, size: nat) {
    (x - va) % ADDRESSES < size
  }

  /** pa >> PAGE_SHIFT, as an address: where the frame of pa begins. */
  function FrameStart(pa: nat): nat {
    pa / PAGE_SIZE * PAGE_SIZE
  }

  /** From mem to mem' the whole pages that hold [va, va + len) were mapped to the frames from that of pa on, and every
      other address queries as before. */
  ghost predicate RangeMapped(mem: Mem, mem': Mem, root: nat, va: nat, pa: nat, len: nat) {
    && (forall j: nat | j < PageCount(len) * PAGE_SIZE :: FrameByte(mem', root, va, pa, j))
    && (forall x: nat | !Hits(x, va, PageCount(len) * PAGE_SIZE) :: Query(mem', root, x) == Query(mem, root, x))
  }

  /** The pages reserved are at least the bytes asked for. */
  lemma PageCountCovers(len: nat)
    ensures len <= PageCount(len) * PAGE_SIZE < len + PAGE_SIZE
  {
  }

  lemma HitsPage(x: nat, va: nat, n: nat)
    requires va % PAGE_SIZE == 0 && InRange(x / PAGE_SIZE, va / PAGE_SIZE, n)
    ensures Hits(x, va, n * PAGE_SIZE)
  {
    var w, v := x / PAGE_SIZE, va / PAGE_SIZE;
    var q, r := (w - v) / PFN_FIELD, (w - v) % PFN_FIELD;
    var off := x % PAGE_SIZE;
    assert x - va == PAGE_SIZE * (w - v) + off;
    assert w - v == PFN_FIELD * q + r;
    DivModUnique(x - va, ADDRESSES, q, r * PAGE_SIZE + off);
    MulMonotone(PAGE_SIZE, r + 1, n);
  }

  lemma QueryPage(mem: Mem, root: nat, x: nat, pfn: nat, f: Attr)
    requires Walk(mem, root, 0, x / PAGE_SIZE) == Page(Leaf(pfn, f)) && AttrOk(f)
    ensures Query(mem, root, x) == Some(pfn % PFN_FIELD * PAGE_SIZE + x % PAGE_SIZE)
  {
    LeafFields(pfn, f);
    hide Walk, Leaf, Next;
  }

  lemma ByteOfPage(va: nat, p: nat, n: nat, j: nat)
    requires va % PAGE_SIZE == 0 && j < n * PAGE_SIZE
    ensures var k := j / PAGE_SIZE;
      && k < n && (va + j) / PAGE_SIZE == va / PAGE_SIZE + k
      && ((p + k) % PFN_FIELD) * PAGE_SIZE + (va + j) % PAGE_SIZE == (p * PAGE_SIZE + j) % ADDRESSES
  {
    var k, off := j / PAGE_SIZE, j % PAGE_SIZE;
    var v := va / PAGE_SIZE;
    assert va == v * PAGE_SIZE && j == k * PAGE_SIZE + off;
    DivModUnique(va + j, PAGE_SIZE, v + k, off);
    var q, r := (p + k) / PFN_FIELD, (p + k) % PFN_FIELD;
    assert p + k == q * PFN_FIELD + r;
    DivModUnique(p * PAGE_SIZE + j, ADDRESSES, q, r * PAGE_SIZE + off);
  }

  lemma FrameFacts(pa: nat)
    ensures FrameStart(pa) == pa / PAGE_SIZE * PAGE_SIZE == pa - pa % PAGE_SIZE
  {
  }

  /** Page by page and byte by byte are the same thing. */
  lemma RangeQueries(s: Space, t: Space, root: nat, va: nat, pa: nat, len: nat, f: Attr)
    requires va % PAGE_SIZE == 0 && AttrOk(f)
    requires MappedRange(s, t, root, va / PAGE_SIZE, pa / PAGE_SIZE, PageCount(len), f)
    ensures RangeMapped(s.mem, t.mem, root, va, pa, len)
  {
    hide Walk, InRange, Hits, Accounted, PageCount, Query, FrameStart, Leaf, AttrOk;
    var v, p, n := va / PAGE_SIZE, pa / PAGE_SIZE, PageCount(len);
    FrameFacts(pa);
    forall j: nat | j < n * PAGE_SIZE ensures FrameByte(t.mem, root, va, pa, j) {
      ByteOfPage(va, p, n, j);
      assert MapsTo(t.mem, root, v, p, f, j / PAGE_SIZE);
      QueryPage(t.mem, root, va + j, p + j / PAGE_SIZE, f);
    }
    forall x: nat | !Hits(x, va, n * PAGE_SIZE) ensures Query(t.mem, root, x) == Query(s.mem, root, x) {
      if InRange(x / PAGE_SIZE, v, n) { HitsPage(x, va, n); }
      SameQuery(s.mem, t.mem, root, x);
    }
  }

  /** The range is translated to pa itself exactly when pa is page-aligned and the range ends below 2^48: the low
      bits are dropped, and so is what does not fit the descriptor. */
  lemma FrameExactIff(mem: Mem, mem': Mem, root: nat, va: nat, pa: nat, len: nat)
    requires RangeMapped(mem, mem', root, va, pa, len) && len > 0
    ensures (forall j: nat | j < len :: Translated(mem', root, va, pa, j)) <==> pa % PAGE_SIZE == 0 && pa + len <= ADDRESSES
  {
    PageCountCovers(len);
    FrameFacts(pa);
    hide Query, PageCount, FrameStart, Hits;
    assert forall j: nat | j < len :: FrameByte(mem', root, va, pa, j);
    if forall j: nat | j < len :: Translated(mem', root, va, pa, j) {
      assert FrameByte(mem', root, va, pa, 0) && Translated(mem', root, va, pa, 0);
      assert FrameByte(mem', root, va, pa, len - 1) && Translated(mem', root, va, pa, len - 1);
      Truncated(FrameStart(pa), pa, len);
    } else if pa % PAGE_SIZE == 0 && pa + len <= ADDRESSES {
      forall j: nat | j < len ensures Translated(mem', root, va, pa, j) {
        assert FrameByte(mem', root, va, pa, j);
      }
      assert false;
    }
  }

  lemma Truncated(f: nat, pa: nat, len: nat)
    requires f <= pa && f % ADDRESSES == pa && len > 0 && (f + (len - 1)) % ADDRESSES == pa + (len - 1)
    ensures f == pa && pa + len <= ADDRESSES
  {
  }

  lemma SameQuery(mem: Mem, mem': Mem, root: nat, x: nat)
    requires Walk(mem', root, 0, x / PAGE_SIZE) == Walk(mem, root, 0, x / PAGE_SIZE)
    ensures Query(mem', root, x) == Query(mem, root, x)
  {
    hide Walk;
  }

  /** The whole of map_range: for page-aligned va it succeeds exactly when no page of the range lies under
      a block descriptor and the free pages cover the missing tables; then byte j of the range translates to
      byte j from the frame of pa on, every other address queries as before, and exactly the missing tables were taken from the free pages. */
  lemma MapRangeExact(s: Space, root: nat, loc: map<nat, Loc>, lo: nat, hi: nat, va: nat, pa: nat, len: nat, f: Attr)
    requires PInv(s, root, loc, lo, hi) && AttrOk(f)
    requires va % PAGE_SIZE == 0 && len <= ADDRESSES
    ensures |s.b.lists| == ORDERS
    ensures
      var v, n := va / PAGE_SIZE, PageCount(len);
      var r := MapPages(s, root, v, pa / PAGE_SIZE, n, f);
      && (r.Mapped? <==> Mappable(s, root, v, n))
      && (r.Mapped? ==>
            && RangeMapped(s.mem, r.s.mem, root, va, pa, len) && MappedRange(s, r.s, root, v, pa / PAGE_SIZE, n, f)
            && Tables(r.s) == Tables(s) + TablesNeeded(s.mem, root, v, n)
            && Total(s.b.lists, 0) == Total(r.s.b.lists, 0) + TablesNeeded(s.mem, root, v, n))
  {
    var v, p, n := va / PAGE_SIZE, pa / PAGE_SIZE, PageCount(len);
    hide *;
    MapPagesIff(s, root, loc, lo, hi, v, p, n, f);
    if MapPages(s, root, v, p, n, f).Mapped? {
      FewEnough(len);
      var loc' := MapPagesOk(s, root, loc, lo, hi, v, p, n, f);
      RangeQueries(s, MapPages(s, root, v, p, n, f).s, root, va, pa, len, f);
    }
  }

  lemma FewEnough(len: nat)
    requires len <= ADDRESSES
    ensures PageCount(len) <= PFN_FIELD
  {
  }
}
