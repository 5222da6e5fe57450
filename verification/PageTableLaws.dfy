/** What mapping does to every translation, over any range. */
module PageTableLaws {
  import opened Dyadic
  import opened BuddySpec
  import opened BuddyLaws
  import opened BuddyRuns
  import opened Kernel
  import opened PageTableSpec

  /** Every translation that exists or does not exist in mem is the same in mem'. */
  ghost predicate SameWalks(mem: Mem, mem': Mem, root: nat) {
    forall w: nat :: Walk(mem', root, 0, w) == Walk(mem, root, 0, w)
  }

  /** Table entries are only ever added. */
  ghost predicate KeepsTables(mem: Mem, mem': Mem) {
    forall t | t in mem && |mem[t]| == ENTRIES ::
      && t in mem' && |mem'[t]| == ENTRIES
      && forall i | 0 <= i < ENTRIES && StepAt(mem, t, i).Table? :: StepAt(mem', t, i) == StepAt(mem, t, i)
  }

  ghost predicate Extends(loc: map<nat, Loc>, loc': map<nat, Loc>) {
    forall t | t in loc :: t in loc' && loc'[t] == loc[t]
  }

  /** Pages taken from the buddy system and tables added are the same number. */
  ghost predicate Accounted(s: Space, t: Space) {
    |t.mem| >= |s.mem| && Total(s.b.lists, 0) == Total(t.b.lists, 0) + (|t.mem| - |s.mem|)
  }

  /** mem' is mem with a zeroed table n hung under the empty entry (t, i). */
  ghost predicate Hung(mem: Mem, mem': Mem, t: nat, i: nat, n: nat) {
    && t in mem && |mem[t]| == ENTRIES && i < ENTRIES && n !in mem && n < PFN_FIELD && !IsValid(mem[t][i])
    && mem' == mem[n := Zeroes()][t := SetEntry(mem[t], i, TableEntry(n))]
  }

  lemma HungAt(mem: Mem, mem': Mem, t: nat, i: nat, n: nat, x: nat, j: nat)
    requires Hung(mem, mem', t, i, n) && x in mem && |mem[x]| == ENTRIES && j < ENTRIES
    ensures x in mem' && |mem'[x]| == ENTRIES
    ensures mem'[x][j] == if x == t && j == i then TableEntry(n) else mem[x][j]
    ensures n in mem' && |mem'[n]| == ENTRIES && !IsValid(mem'[n][j])
  {
    SetEntryAt(mem[t], i, TableEntry(n), j);
  }

  lemma HungStep(mem: Mem, mem': Mem, t: nat, i: nat, n: nat)
    requires Hung(mem, mem', t, i, n)
    ensures t in mem' && |mem'[t]| == ENTRIES && StepAt(mem', t, i) == Table(n)
  {
    HungAt(mem, mem', t, i, n, t, i);
    TableFields(n);
    SmallField(n);
    hide TableEntry, IsValid, IsTable, Next;
  }

  lemma SmallField(n: nat)
    requires n < PFN_FIELD
    ensures n % PFN_FIELD == n
  {
  }

  lemma HungKeeps(mem: Mem, mem': Mem, t: nat, i: nat, n: nat)
    requires Hung(mem, mem', t, i, n)
    ensures KeepsTables(mem, mem')
  {
    hide Hung, IsValid, IsTable, Next;
    forall x | x in mem && |mem[x]| == ENTRIES
      ensures x in mem' && |mem'[x]| == ENTRIES
      ensures forall j | 0 <= j < ENTRIES && StepAt(mem, x, j).Table? :: StepAt(mem', x, j) == StepAt(mem, x, j)
    {
      HungAt(mem, mem', t, i, n, x, 0);
      forall j | 0 <= j < ENTRIES && StepAt(mem, x, j).Table? ensures StepAt(mem', x, j) == StepAt(mem, x, j) {
        HungAt(mem, mem', t, i, n, x, j);
        HungEmpty(mem, mem', t, i, n);
      }
    }
  }

  lemma HungEmpty(mem: Mem, mem': Mem, t: nat, i: nat, n: nat)
    requires Hung(mem, mem', t, i, n)
    ensures t in mem && i < |mem[t]| && StepAt(mem, t, i) == Missing
  {
  }

  /** A new empty table under an empty entry changes no translation. */
  lemma {:induction false} HungWalk(mem: Mem, mem': Mem, root: nat, loc: map<nat, Loc>, t: nat, i: nat, n: nat, x: nat, l: nat, w: nat)
    requires Tree(mem, root, loc) && Hung(mem, mem', t, i, n) && x in mem && l <= 3 && loc[x].level == l && loc[t].level < 3
    ensures Walk(mem', x, l, w) == Walk(mem, x, l, w)
    decreases 3 - l
  {
    hide IsValid, IsTable, Next, Hung;
    var j := Index(w, l);
    assert |mem[x]| == ENTRIES;
    HungAt(mem, mem', t, i, n, x, j);
    assert EntryOk(mem, loc, x, j);
    if x == t && j == i {
      HungStep(mem, mem', t, i, n);
      HungEmpty(mem, mem', t, i, n);
      HungAt(mem, mem', t, i, n, x, Index(w, l + 1));
    } else if l < 3 && StepAt(mem, x, j).Table? {
      HungWalk(mem, mem', root, loc, t, i, n, Next(mem[x][j]), l + 1, w);
    }
  }

  lemma HungTree(mem: Mem, mem': Mem, root: nat, loc: map<nat, Loc>, t: nat, i: nat, n: nat)
    requires Tree(mem, root, loc) && Hung(mem, mem', t, i, n) && loc[t].level < 3
    ensures Tree(mem', root, loc[n := Loc(loc[t].level + 1, loc[t].prefix * 512 + i)])
  {
    var loc' := loc[n := Loc(loc[t].level + 1, loc[t].prefix * 512 + i)];
    TableFields(n);
    SmallField(n);
    HungAt(mem, mem', t, i, n, t, 0);
    hide IsValid, IsTable, Next, TableEntry;
    forall x | x in mem' ensures |mem'[x]| == ENTRIES && loc'[x].level <= 3 {
      if x != n { HungAt(mem, mem', t, i, n, x, 0); }
    }
    forall x, j | x in mem' && 0 <= j < ENTRIES ensures EntryOk(mem', loc', x, j) {
      if x == n {
        HungAt(mem, mem', t, i, n, t, j);
      } else {
        HungAt(mem, mem', t, i, n, x, j);
        assert EntryOk(mem, loc, x, j);
      }
    }
  }

  /** d goes one level further down the path of page v, and everything else is as before. */
  ghost predicate DescentOk(s: Space, root: nat, loc: map<nat, Loc>, loc': map<nat, Loc>, lo: nat, hi: nat,
                            t: nat, level: nat, v: nat, d: Descent)
    requires d.Down?
  {
    && PInv(d.s, root, loc', lo, hi) && d.t in d.s.mem && loc'[d.t] == Loc(level + 1, Prefix(v, level + 1))
    && t in d.s.mem && |d.s.mem[t]| == ENTRIES && StepAt(d.s.mem, t, Index(v, level)) == Table(d.t)
    && SameWalks(s.mem, d.s.mem, root) && KeepsTables(s.mem, d.s.mem) && Extends(loc, loc') && Accounted(s, d.s)
  }

  lemma DescendFollow(s: Space, root: nat, loc: map<nat, Loc>, lo: nat, hi: nat, t: nat, level: nat, v: nat)
    requires PInv(s, root, loc, lo, hi) && t in s.mem && level < 3 && loc[t] == Loc(level, Prefix(v, level))
    requires StepAt(s.mem, t, Index(v, level)).Table?
    ensures Descend(s, t, Index(v, level)) == Down(s, StepAt(s.mem, t, Index(v, level)).t)
    ensures DescentOk(s, root, loc, loc, lo, hi, t, level, v, Descend(s, t, Index(v, level)))
  {
    hide Inv, Total, Walk, IsValid, IsTable, Next, Backed;
    assert EntryOk(s.mem, loc, t, Index(v, level));
  }

  /** The allocating branch: one page leaves the buddy system and is hung under the entry. */
  lemma DescendShape(s: Space, root: nat, loc: map<nat, Loc>, lo: nat, hi: nat, t: nat, i: nat)
    requires PInv(s, root, loc, lo, hi) && t in s.mem && i < ENTRIES && |s.mem[t]| == ENTRIES
    requires StepAt(s.mem, t, i).Missing? && Descend(s, t, i).Down?
    ensures var d := Descend(s, t, i);
      && |d.s.b.lists| == ORDERS && Inv(d.s.b, lo, hi) && Hung(s.mem, d.s.mem, t, i, d.t)
      && Handed(s.b, d.s.b, d.t + KPAGES, 0) && Held(d.s.b, d.t + KPAGES, 0)
      && Total(s.b.lists, 0) == Total(d.s.b.lists, 0) + 1
  {
    hide *;
    SpaceParts(s, root, loc, lo, hi);
    EmptyEntry(s.mem, t, i);
    TakeKeeps(s.b, 0, lo, hi);
    TakeTotal(s.b, 0, lo, hi);
    TableIsNew(s, lo, hi, t, i);
  }

  lemma TableIsNew(s: Space, lo: nat, hi: nat, t: nat, i: nat)
    requires |s.b.lists| == ORDERS && Backed(s.mem, s.b) && t in s.mem && i < ENTRIES && |s.mem[t]| == ENTRIES
    requires StepAt(s.mem, t, i).Missing? && !IsValid(s.mem[t][i]) && Descend(s, t, i).Down?
    requires Take(s.b, 0).Got? ==>
      var r := Take(s.b, 0);
      Inv(r.s, lo, hi) && Handed(s.b, r.s, r.a, 0) && Held(r.s, r.a, 0) && Total(s.b.lists, 0) == Total(r.s.lists, 0) + Pow2(0)
    ensures var d := Descend(s, t, i);
      && |d.s.b.lists| == ORDERS && Inv(d.s.b, lo, hi) && Hung(s.mem, d.s.mem, t, i, d.t)
      && Handed(s.b, d.s.b, d.t + KPAGES, 0) && Held(d.s.b, d.t + KPAGES, 0)
      && Total(s.b.lists, 0) == Total(d.s.b.lists, 0) + 1
  {
    hide Inv, Total, IsValid, IsTable, Next, TableEntry, Handed, SetEntry, Zeroes, Backed, Take, StepAt;
    var r := Take(s.b, 0);
    FreshTable(s, r.s, r.a);
  }

  /** The facts about a space that one step of a descent starts from. */
  lemma SpaceParts(s: Space, root: nat, loc: map<nat, Loc>, lo: nat, hi: nat)
    requires PInv(s, root, loc, lo, hi)
    ensures |s.b.lists| == ORDERS && KPAGES <= lo && hi <= KPAGES + PFN_FIELD
    ensures Tree(s.mem, root, loc) && Backed(s.mem, s.b) && Inv(s.b, lo, hi)
  {
  }

  lemma DescendAlloc(s: Space, root: nat, loc: map<nat, Loc>, lo: nat, hi: nat, t: nat, level: nat, v: nat) returns (loc': map<nat, Loc>)
    requires PInv(s, root, loc, lo, hi) && t in s.mem && level < 3 && loc[t] == Loc(level, Prefix(v, level))
    requires StepAt(s.mem, t, Index(v, level)).Missing? && Descend(s, t, Index(v, level)).Down?
    ensures DescentOk(s, root, loc, loc', lo, hi, t, level, v, Descend(s, t, Index(v, level)))
  {
    hide *;
    SpaceParts(s, root, loc, lo, hi);
    var i := Index(v, level);
    TreeRow(s.mem, root, loc, t);
    DescendShape(s, root, loc, lo, hi, t, i);
    var d := Descend(s, t, i);
    HungAll(s.mem, d.s.mem, root, loc, t, i, d.t);
    loc' := loc[d.t := Loc(level + 1, loc[t].prefix * 512 + i)];
    BackedAfter(s, d.s.b, d.t + KPAGES, d.s.mem);
    HungNew(s.mem, d.s.mem, t, i, d.t);
    ExtendsOne(s.mem, root, loc, d.t, Loc(level + 1, loc[t].prefix * 512 + i));
    AllocDone(s, root, loc, loc', lo, hi, t, level, v, d);
  }

  lemma AllocDone(s: Space, root: nat, loc: map<nat, Loc>, loc': map<nat, Loc>, lo: nat, hi: nat, t: nat, level: nat, v: nat, d: Descent)
    requires d.Down? && level < 3 && |d.s.b.lists| == ORDERS && KPAGES <= lo && hi <= KPAGES + PFN_FIELD
    requires Inv(d.s.b, lo, hi) && Tree(d.s.mem, root, loc') && Backed(d.s.mem, d.s.b)
    requires d.t in d.s.mem && d.t in loc' && loc'[d.t] == Loc(level + 1, Prefix(v, level) * 512 + Index(v, level))
    requires t in d.s.mem && |d.s.mem[t]| == ENTRIES && StepAt(d.s.mem, t, Index(v, level)) == Table(d.t)
    requires SameWalks(s.mem, d.s.mem, root) && KeepsTables(s.mem, d.s.mem) && Extends(loc, loc')
    requires |d.s.mem| == |s.mem| + 1 && Total(s.b.lists, 0) == Total(d.s.b.lists, 0) + 1
    ensures DescentOk(s, root, loc, loc', lo, hi, t, level, v, d)
  {
    hide Inv, Tree, Backed, Index, StepAt, SameWalks, KeepsTables, Extends, Total;
  }

  lemma HungNew(mem: Mem, mem': Mem, t: nat, i: nat, n: nat)
    requires Hung(mem, mem', t, i, n)
    ensures n !in mem && n in mem'
  {
  }

  lemma EmptyEntry(mem: Mem, t: nat, i: nat)
    requires t in mem && i < |mem[t]| && StepAt(mem, t, i).Missing?
    ensures !IsValid(mem[t][i])
  {
  }

  lemma TreeRow(mem: Mem, root: nat, loc: map<nat, Loc>, t: nat)
    requires Tree(mem, root, loc) && t in mem
    ensures |mem[t]| == ENTRIES && t in loc
  {
  }

  lemma ExtendsOne(mem: Mem, root: nat, loc: map<nat, Loc>, n: nat, l: Loc)
    requires Tree(mem, root, loc) && n !in mem
    ensures Extends(loc, loc[n := l])
  {
  }

  /** get_next_ptp with alloc, on the path of page v. */
  lemma DescendOk(s: Space, root: nat, loc: map<nat, Loc>, lo: nat, hi: nat, t: nat, level: nat, v: nat) returns (loc': map<nat, Loc>)
    requires PInv(s, root, loc, lo, hi) && t in s.mem && level < 3 && loc[t] == Loc(level, Prefix(v, level))
    requires Descend(s, t, Index(v, level)).Down?
    ensures DescentOk(s, root, loc, loc', lo, hi, t, level, v, Descend(s, t, Index(v, level)))
  {
    hide PInv, DescentOk, StepAt, Index;
    TreeRowOf(s, root, loc, lo, hi, t);
    if StepAt(s.mem, t, Index(v, level)).Table? {
      DescendFollow(s, root, loc, lo, hi, t, level, v);
      loc' := loc;
    } else {
      loc' := DescendAlloc(s, root, loc, lo, hi, t, level, v);
    }
  }

  lemma TreeRowOf(s: Space, root: nat, loc: map<nat, Loc>, lo: nat, hi: nat, t: nat)
    requires PInv(s, root, loc, lo, hi) && t in s.mem
    ensures |s.mem[t]| == ENTRIES && t in loc && root in s.mem && loc[root] == Loc(0, 0)
  {
  }

  lemma HungAll(mem: Mem, mem': Mem, root: nat, loc: map<nat, Loc>, t: nat, i: nat, n: nat)
    requires Tree(mem, root, loc) && Hung(mem, mem', t, i, n) && loc[t].level < 3
    ensures Tree(mem', root, loc[n := Loc(loc[t].level + 1, loc[t].prefix * 512 + i)])
    ensures SameWalks(mem, mem', root) && KeepsTables(mem, mem') && |mem'| == |mem| + 1
    ensures mem'.Keys == mem.Keys + {n} && t in mem' && |mem'[t]| == ENTRIES && StepAt(mem', t, i) == Table(n)
  {
    HungTree(mem, mem', root, loc, t, i, n);
    HungKeeps(mem, mem', t, i, n);
    HungStep(mem, mem', t, i, n);
    forall w: nat ensures Walk(mem', root, 0, w) == Walk(mem, root, 0, w) {
      HungWalk(mem, mem', root, loc, t, i, n, root, 0, w);
    }
    hide Tree, Walk, IsValid;
    assert mem'.Keys == mem.Keys + {n};
  }

  /** A page just handed out was not a table. */
  lemma FreshTable(s: Space, b': BuddySpec.State, a: nat)
    requires Backed(s.mem, s.b) && Handed(s.b, b', a, 0) && Held(b', a, 0) && a >= KPAGES
    ensures a - KPAGES !in s.mem
  {
    assert Pow2(0) == 1;
  }

  lemma BackedAfter(s: Space, b': BuddySpec.State, a: nat, mem': Mem)
    requires Backed(s.mem, s.b) && Handed(s.b, b', a, 0) && Held(b', a, 0) && a >= KPAGES
    requires mem'.Keys == s.mem.Keys + {a - KPAGES}
    ensures Backed(mem', b')
  {
  }

  // ---------- one page ----------

  /** The three tables on the path of v below the root. */
  ghost predicate PathTo(mem: Mem, root: nat, v: nat, t1: nat, t2: nat, t3: nat) {
    && root in mem && |mem[root]| == ENTRIES && StepAt(mem, root, Index(v, 0)) == Table(t1)
    && t1 in mem && |mem[t1]| == ENTRIES && StepAt(mem, t1, Index(v, 1)) == Table(t2)
    && t2 in mem && |mem[t2]| == ENTRIES && StepAt(mem, t2, Index(v, 2)) == Table(t3)
    && t3 in mem && |mem[t3]| == ENTRIES
  }

  lemma PathWalk(mem: Mem, root: nat, v: nat, t1: nat, t2: nat, t3: nat)
    requires PathTo(mem, root, v, t1, t2, t3)
    ensures Walk(mem, root, 0, v) == Walk(mem, t3, 3, v)
  {
    hide IsValid, IsTable, Next, Index;
    assert Walk(mem, root, 0, v) == Walk(mem, t1, 1, v);
    assert Walk(mem, t1, 1, v) == Walk(mem, t2, 2, v);
    assert Walk(mem, t2, 2, v) == Walk(mem, t3, 3, v);
  }

  lemma LeafAt(mem: Mem, t: nat, v: nat, e: nat, x: nat, j: nat)
    requires t in mem && |mem[t]| == ENTRIES && x in mem && |mem[x]| == ENTRIES && j < ENTRIES
    ensures var mem' := SetLeaf(mem, t, v, e);
      && x in mem' && |mem'[x]| == ENTRIES
      && mem'[x][j] == if x == t && j == Index(v, 3) then e else mem[x][j]
  {
    SetEntryAt(mem[t], Index(v, 3), e, j);
  }

  /** Writing a leaf of a level-3 table keeps the tree. */
  lemma LeafTree(mem: Mem, root: nat, loc: map<nat, Loc>, t: nat, v: nat, e: nat)
    requires Tree(mem, root, loc) && t in mem && loc[t].level == 3
    ensures Tree(SetLeaf(mem, t, v, e), root, loc)
  {
    var mem' := SetLeaf(mem, t, v, e);
    assert |mem[t]| == ENTRIES;
    hide IsValid, IsTable, Next, Index;
    forall x | x in mem' ensures |mem'[x]| == ENTRIES {
      LeafAt(mem, t, v, e, x, 0);
    }
    assert mem'.Keys == mem.Keys;
    forall x, j | x in mem' && 0 <= j < ENTRIES ensures EntryOk(mem', loc, x, j) {
      LeafAt(mem, t, v, e, x, j);
      assert EntryOk(mem, loc, x, j);
    }
  }

  /** Writing the leaf of page v changes the translation of v and of no other page. */
  lemma LeafOthers(mem: Mem, root: nat, loc: map<nat, Loc>, t: nat, v: nat, e: nat, w: nat)
    requires Tree(mem, root, loc) && t in mem && loc[t] == Loc(3, Prefix(v, 3)) && w % PFN_FIELD != v % PFN_FIELD
    ensures Walk(SetLeaf(mem, t, v, e), root, 0, w) == Walk(mem, root, 0, w)
  {
    var mem' := SetLeaf(mem, t, v, e);
    forall x | x in mem ensures x in mem' && |mem'[x]| == ENTRIES {
      LeafAt(mem, t, v, e, x, 0);
    }
    forall x, j | x in mem && 0 <= j < ENTRIES && !(x == t && j == Index(v, 3)) ensures mem'[x][j] == mem[x][j] {
      LeafAt(mem, t, v, e, x, j);
    }
    if OnPath(loc, t, Index(v, 3), w) {
      PrefixInjective(v, w);
    }
    hide Index, Prefix;
    assert Prefix(w, 0) == 0 by { PrefixZero(w); }
    WalkFrame(mem, mem', root, loc, root, 0, w, t, Index(v, 3));
  }

  lemma PrefixZero(w: nat)
    ensures Prefix(w, 0) == 0
  {
  }

  lemma LeafPath(mem: Mem, root: nat, loc: map<nat, Loc>, v: nat, t1: nat, t2: nat, t3: nat, e: nat)
    requires Tree(mem, root, loc) && PathTo(mem, root, v, t1, t2, t3)
    requires loc[t1].level == 1 && loc[t2].level == 2 && loc[t3].level == 3 && IsValid(e)
    ensures PathTo(SetLeaf(mem, t3, v, e), root, v, t1, t2, t3)
    ensures Walk(SetLeaf(mem, t3, v, e), root, 0, v) == Page(e)
  {
    var mem' := SetLeaf(mem, t3, v, e);
    LeafAt(mem, t3, v, e, root, Index(v, 0));
    LeafAt(mem, t3, v, e, t1, Index(v, 1));
    LeafAt(mem, t3, v, e, t2, Index(v, 2));
    LeafAt(mem, t3, v, e, t3, Index(v, 3));
    hide IsValid, IsTable, Next, Index, SetLeaf;
    assert root != t3 && t1 != t3 && t2 != t3;
    PathWalk(mem', root, v, t1, t2, t3);
  }

  /** From s to t page v got the descriptor e, and no other translation or descriptor changed. */
  ghost predicate MappedOne(s: Space, t: Space, root: nat, v: nat, e: nat) {
    && Walk(t.mem, root, 0, v) == Page(e)
    && (forall w: nat | w % PFN_FIELD != v % PFN_FIELD :: Walk(t.mem, root, 0, w) == Walk(s.mem, root, 0, w))
    && Accounted(s, t)
  }

  lemma KeptStep(mem: Mem, mem': Mem, t: nat, i: nat, n: nat)
    requires KeepsTables(mem, mem') && t in mem && |mem[t]| == ENTRIES && i < ENTRIES && StepAt(mem, t, i) == Table(n)
    ensures t in mem' && |mem'[t]| == ENTRIES && StepAt(mem', t, i) == Table(n)
  {
  }

  lemma SameWalksTrans(mem: Mem, mem1: Mem, mem2: Mem, mem3: Mem, root: nat)
    requires SameWalks(mem, mem1, root) && SameWalks(mem1, mem2, root) && SameWalks(mem2, mem3, root)
    ensures SameWalks(mem, mem3, root)
  {
    hide Walk;
  }

  /** Three descents: the tables on the path exist, and no translation has changed yet. */
  lemma ThreeDown(s: Space, root: nat, loc: map<nat, Loc>, l1: map<nat, Loc>, l2: map<nat, Loc>, l3: map<nat, Loc>,
                  lo: nat, hi: nat, v: nat, d1: Descent, d2: Descent, d3: Descent)
    requires d1.Down? && d2.Down? && d3.Down? && PInv(s, root, loc, lo, hi)
    requires DescentOk(s, root, loc, l1, lo, hi, root, 0, v, d1)
    requires DescentOk(d1.s, root, l1, l2, lo, hi, d1.t, 1, v, d2)
    requires DescentOk(d2.s, root, l2, l3, lo, hi, d2.t, 2, v, d3)
    ensures PInv(d3.s, root, l3, lo, hi) && PathTo(d3.s.mem, root, v, d1.t, d2.t, d3.t)
    ensures d1.t in l3 && d2.t in l3 && d3.t in l3 && l3[d1.t].level == 1 && l3[d2.t].level == 2 && l3[d3.t] == Loc(3, Prefix(v, 3))
    ensures SameWalks(s.mem, d3.s.mem, root) && Accounted(s, d3.s)
  {
    TreeRowOf(s, root, loc, lo, hi, root);
    TreeRowOf(d1.s, root, l1, lo, hi, d1.t);
    TreeRowOf(d2.s, root, l2, lo, hi, d2.t);
    TreeRowOf(d3.s, root, l3, lo, hi, d3.t);
    hide PInv, StepAt, Index, Prefix, KeepsTables, Total, SameWalks;
    KeptStep(d1.s.mem, d2.s.mem, root, Index(v, 0), d1.t);
    KeptStep(d2.s.mem, d3.s.mem, root, Index(v, 0), d1.t);
    KeptStep(d2.s.mem, d3.s.mem, d1.t, Index(v, 1), d2.t);
    SameWalksTrans(s.mem, d1.s.mem, d2.s.mem, d3.s.mem, root);
  }

  /** The leaf write at the end of a path. */
  lemma LeafOk(s: Space, s3: Space, root: nat, loc: map<nat, Loc>, lo: nat, hi: nat, v: nat, pfn: nat, f: Attr, t1: nat, t2: nat, t3: nat)
    requires PInv(s3, root, loc, lo, hi) && PathTo(s3.mem, root, v, t1, t2, t3) && AttrOk(f)
    requires t1 in loc && t2 in loc && t3 in loc && loc[t1].level == 1 && loc[t2].level == 2 && loc[t3] == Loc(3, Prefix(v, 3))
    requires SameWalks(s.mem, s3.mem, root) && Accounted(s, s3)
    ensures var t := PT(s3.b, SetLeaf(s3.mem, t3, v, Leaf(pfn, f)));
      PInv(t, root, loc, lo, hi) && MappedOne(s, t, root, v, Leaf(pfn, f)) && PathTo(t.mem, root, v, t1, t2, t3)
  {
    var e := Leaf(pfn, f);
    var mem' := SetLeaf(s3.mem, t3, v, e);
    LeafFields(pfn, f);
    LeafTree(s3.mem, root, loc, t3, v, e);
    LeafPath(s3.mem, root, loc, v, t1, t2, t3, e);
    hide Inv, Walk, Tree, Leaf, IsValid, IsTable, Next, PathTo, Total, Index, Prefix;
    forall w: nat | w % PFN_FIELD != v % PFN_FIELD ensures Walk(mem', root, 0, w) == Walk(s.mem, root, 0, w) {
      LeafOthers(s3.mem, root, loc, t3, v, e, w);
      assert Walk(s3.mem, root, 0, w) == Walk(s.mem, root, 0, w);
    }
    assert mem'.Keys == s3.mem.Keys;
    assert |mem'| == |s3.mem|;
  }

  /** Mapping one page: it translates to its frame, everything else as before. */
  lemma MapOneOk(s: Space, root: nat, loc: map<nat, Loc>, lo: nat, hi: nat, v: nat, pfn: nat, f: Attr)
    returns (loc': map<nat, Loc>, t1: nat, t2: nat, t3: nat)
    requires PInv(s, root, loc, lo, hi) && AttrOk(f) && MapOne(s, root, v, pfn, f).Mapped?
    ensures var t := MapOne(s, root, v, pfn, f).s;
      PInv(t, root, loc', lo, hi) && MappedOne(s, t, root, v, Leaf(pfn, f)) && PathTo(t.mem, root, v, t1, t2, t3)
    ensures t1 in loc' && t2 in loc' && t3 in loc' && loc'[t1].level == 1 && loc'[t2].level == 2 && loc'[t3] == Loc(3, Prefix(v, 3))
  {
    hide Inv, Tree, Backed, DescentOk, Descend, MappedOne, PathTo, Index, SetLeaf, Leaf, SameWalks, Accounted;
    RootFacts(s, root, loc, lo, hi);
    PrefixZero(v);
    var d1 := Descend(s, root, Index(v, 0));
    var l1 := DescendOk(s, root, loc, lo, hi, root, 0, v);
    DescentFacts(s, root, loc, l1, lo, hi, root, 0, v, d1);
    var d2 := Descend(d1.s, d1.t, Index(v, 1));
    var l2 := DescendOk(d1.s, root, l1, lo, hi, d1.t, 1, v);
    DescentFacts(d1.s, root, l1, l2, lo, hi, d1.t, 1, v, d2);
    var d3 := Descend(d2.s, d2.t, Index(v, 2));
    var l3 := DescendOk(d2.s, root, l2, lo, hi, d2.t, 2, v);
    ThreeDown(s, root, loc, l1, l2, l3, lo, hi, v, d1, d2, d3);
    LeafOk(s, d3.s, root, l3, lo, hi, v, pfn, f, d1.t, d2.t, d3.t);
    loc', t1, t2, t3 := l3, d1.t, d2.t, d3.t;
  }

  lemma RootFacts(s: Space, root: nat, loc: map<nat, Loc>, lo: nat, hi: nat)
    requires PInv(s, root, loc, lo, hi)
    ensures root in s.mem && root in loc && |s.mem[root]| == ENTRIES && loc[root] == Loc(0, 0)
  {
  }

  lemma DescentFacts(s: Space, root: nat, loc: map<nat, Loc>, loc': map<nat, Loc>, lo: nat, hi: nat, t: nat, level: nat, v: nat, d: Descent)
    requires d.Down? && DescentOk(s, root, loc, loc', lo, hi, t, level, v, d)
    ensures PInv(d.s, root, loc', lo, hi) && |d.s.b.lists| == ORDERS && d.t in d.s.mem && d.t in loc'
    ensures loc'[d.t] == Loc(level + 1, Prefix(v, level + 1))
  {
  }

  // ---------- a range ----------

  /** Page w is one of the n pages from v, in the 48-bit space. */
  predicate InRange(w: nat, v: nat, n: nat) {
    (w - v) % PFN_FIELD < n
  }

  ghost predicate MapsTo(mem: Mem, root: nat, v: nat, pfn: nat, f: Attr, k: nat) {
    Walk(mem, root, 0, v + k) == Page(Leaf(pfn + k, f))
  }

  /** From s to t pages v..v+n got the leaves of frames pfn.., and no other translation or descriptor changed. */
  ghost predicate MappedRange(s: Space, t: Space, root: nat, v: nat, pfn: nat, n: nat, f: Attr) {
    && (forall k: nat | k < n :: MapsTo(t.mem, root, v, pfn, f, k))
    && (forall w: nat | !InRange(w, v, n) :: Walk(t.mem, root, 0, w) == Walk(s.mem, root, 0, w))
    && Accounted(s, t)
  }

  lemma RangeFacts(w: nat, v: nat, n: nat)
    requires 0 < n <= PFN_FIELD
    ensures !InRange(w, v, n) ==> w % PFN_FIELD != v % PFN_FIELD && !InRange(w, v + 1, n - 1)
    ensures !InRange(v, v + 1, n - 1)
  {
    var r := (w - v) % PFN_FIELD;
    var q := (w - v) / PFN_FIELD;
    if w % PFN_FIELD == v % PFN_FIELD {
      DivModUnique(w - v, PFN_FIELD, w / PFN_FIELD - v / PFN_FIELD, 0);
    }
    if r > 0 {
      DivModUnique(w - (v + 1), PFN_FIELD, q, r - 1);
    } else {
      DivModUnique(w - (v + 1), PFN_FIELD, q - 1, PFN_FIELD - 1);
    }
    DivModUnique(v - (v + 1), PFN_FIELD, -1, PFN_FIELD - 1);
  }

  lemma RangeStep(s: Space, m: Space, t: Space, root: nat, v: nat, pfn: nat, n: nat, f: Attr)
    requires 0 < n <= PFN_FIELD && MappedOne(s, m, root, v, Leaf(pfn, f)) && MappedRange(m, t, root, v + 1, pfn + 1, n - 1, f)
    ensures MappedRange(s, t, root, v, pfn, n, f)
  {
    hide Walk, InRange, Total, Leaf;
    RangeFacts(v, v, n);
    forall k: nat | k < n ensures MapsTo(t.mem, root, v, pfn, f, k) {
      if k > 0 {
        assert MapsTo(t.mem, root, v + 1, pfn + 1, f, k - 1);
        assert (v + 1) + (k - 1) == v + k && (pfn + 1) + (k - 1) == pfn + k;
      } else {
        assert Walk(t.mem, root, 0, v) == Walk(m.mem, root, 0, v);
      }
    }
    forall w: nat | !InRange(w, v, n) ensures Walk(t.mem, root, 0, w) == Walk(s.mem, root, 0, w) {
      RangeFacts(w, v, n);
    }
  }

  lemma {:induction false} MapPagesOk(s: Space, root: nat, loc: map<nat, Loc>, lo: nat, hi: nat, v: nat, pfn: nat, n: nat, f: Attr)
    returns (loc': map<nat, Loc>)
    requires PInv(s, root, loc, lo, hi) && AttrOk(f) && n <= PFN_FIELD && MapPages(s, root, v, pfn, n, f).Mapped?
    ensures var t := MapPages(s, root, v, pfn, n, f).s;
      PInv(t, root, loc', lo, hi) && MappedRange(s, t, root, v, pfn, n, f)
    decreases n
  {
    hide PInv, MappedOne, MapOne, Walk, InRange, Leaf;
    loc' := loc;
    if n > 0 {
      SpaceShape(s, root, loc, lo, hi);
      var t1, t2, t3;
      var m := MapOne(s, root, v, pfn, f).s;
      loc', t1, t2, t3 := MapOneOk(s, root, loc, lo, hi, v, pfn, f);
      loc' := MapPagesOk(m, root, loc', lo, hi, v + 1, pfn + 1, n - 1, f);
      RangeStep(s, m, MapPages(s, root, v, pfn, n, f).s, root, v, pfn, n, f);
    } else {
      NoRange(v);
    }
  }

  lemma SpaceShape(s: Space, root: nat, loc: map<nat, Loc>, lo: nat, hi: nat)
    requires PInv(s, root, loc, lo, hi)
    ensures |s.b.lists| == ORDERS
  {
  }

  lemma NoRange(v: nat)
    ensures forall w: nat :: !InRange(w, v, 0)
  {
  }
}
