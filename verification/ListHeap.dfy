/**
  The intrusive circular lists of list.h. A heap holds the list heads of one subsystem and
  the nodes embedded in its objects (pages, slab headers); each list refines a sequence.
 */
module ListHeap {

  /** A `struct list_head`: the anchor of list k, or the one embedded in object a. */
  datatype Node = Head(k: nat) | Item(a: nat)

  /** Position i of ring k: the head, its elements in order, and the head again. */
  ghost function At(lists: seq<seq<nat>>, k: nat, i: nat): Node
    requires k < |lists|
  {
    if 1 <= i <= |lists[k]| then Item(lists[k][i - 1]) else Head(k)
  }

  ghost predicate Linked(next: map<Node, Node>, prev: map<Node, Node>, x: Node, y: Node) {
    x in next && next[x] == y && y in prev && prev[y] == x
  }

  ghost predicate LinkedAt(next: map<Node, Node>, prev: map<Node, Node>, lists: seq<seq<nat>>, k: nat, i: nat)
    requires k < |lists|
  {
    Linked(next, prev, At(lists, k, i), At(lists, k, i + 1))
  }

  /** Every ring is linked both ways. */
  ghost predicate Rings(next: map<Node, Node>, prev: map<Node, Node>, lists: seq<seq<nat>>) {
    forall k: nat, i: nat | k < |lists| && i <= |lists[k]| :: LinkedAt(next, prev, lists, k, i)
  }

  /** No object is on two lists, or twice on one. */
  ghost predicate NoShare(lists: seq<seq<nat>>) {
    forall k, i, l, j | 0 <= k < |lists| && 0 <= i < |lists[k]| && 0 <= l < |lists| && 0 <= j < |lists[l]|
      && lists[k][i] == lists[l][j] :: k == l && i == j
  }

  predicate Listed(lists: seq<seq<nat>>, a: nat) {
    exists k | 0 <= k < |lists| :: a in lists[k]
  }

  ghost function Insert(lists: seq<seq<nat>>, k: nat, i: nat, a: nat): seq<seq<nat>>
    requires k < |lists| && i <= |lists[k]|
  {
    lists[k := lists[k][..i] + [a] + lists[k][i..]]
  }

  ghost function Delete(lists: seq<seq<nat>>, k: nat, i: nat): seq<seq<nat>>
    requires k < |lists| && i < |lists[k]|
  {
    lists[k := lists[k][..i] + lists[k][i + 1..]]
  }

  lemma InsertAt(lists: seq<seq<nat>>, k: nat, i: nat, a: nat, l: nat, j: nat)
    requires k < |lists| && i <= |lists[k]| && l < |lists|
    ensures var r := Insert(lists, k, i, a);
      At(r, l, j) == if l != k || j <= i then At(lists, l, j) else if j == i + 1 then Item(a) else At(lists, k, j - 1)
  {
  }

  lemma DeleteAt(lists: seq<seq<nat>>, k: nat, i: nat, l: nat, j: nat)
    requires k < |lists| && i < |lists[k]| && l < |lists|
    ensures var r := Delete(lists, k, i);
      At(r, l, j) == if l != k || j <= i then At(lists, l, j) else At(lists, k, j + 1)
  {
  }

  lemma AtUnique(lists: seq<seq<nat>>, k: nat, i: nat, l: nat, j: nat)
    requires NoShare(lists) && k < |lists| && l < |lists| && At(lists, k, i) == At(lists, l, j)
    ensures k == l
    ensures i <= |lists[k]| && j <= |lists[l]| ==> i == j
    ensures 1 <= i <= |lists[k]| + 1 && 1 <= j <= |lists[l]| + 1 ==> i == j
  {
  }

  lemma ItemNotListed(lists: seq<seq<nat>>, a: nat, k: nat, i: nat)
    requires !Listed(lists, a) && k < |lists|
    ensures At(lists, k, i) != Item(a)
  {
  }

  lemma InsertNoShare(lists: seq<seq<nat>>, k: nat, i: nat, a: nat)
    requires NoShare(lists) && k < |lists| && i <= |lists[k]| && !Listed(lists, a)
    ensures NoShare(Insert(lists, k, i, a))
  {
    var r := Insert(lists, k, i, a);
    forall l, p, m, q | 0 <= l < |r| && 0 <= p < |r[l]| && 0 <= m < |r| && 0 <= q < |r[m]| && r[l][p] == r[m][q]
      ensures l == m && p == q
    {
      var p' := if l == k && p > i then p - 1 else p;
      var q' := if m == k && q > i then q - 1 else q;
      if !(l == k && p == i) { assert r[l][p] == lists[l][p'] && r[l][p] in lists[l]; }
      if !(m == k && q == i) { assert r[m][q] == lists[m][q'] && r[m][q] in lists[m]; }
    }
  }

  lemma DeleteNoShare(lists: seq<seq<nat>>, k: nat, i: nat)
    requires NoShare(lists) && k < |lists| && i < |lists[k]|
    ensures NoShare(Delete(lists, k, i)) && !Listed(Delete(lists, k, i), lists[k][i])
  {
    var r := Delete(lists, k, i);
    forall l, p, m, q | 0 <= l < |r| && 0 <= p < |r[l]| && 0 <= m < |r| && 0 <= q < |r[m]| && r[l][p] == r[m][q]
      ensures l == m && p == q
    {
      var p' := if l == k && p >= i then p + 1 else p;
      var q' := if m == k && q >= i then q + 1 else q;
      assert r[l][p] == lists[l][p'] && r[m][q] == lists[m][q'];
    }
    forall l | 0 <= l < |r| ensures lists[k][i] !in r[l] {
      forall p | 0 <= p < |r[l]| ensures r[l][p] != lists[k][i] {
        assert r[l][p] == lists[l][if l == k && p >= i then p + 1 else p];
      }
    }
  }

  /** Splicing a fresh node between positions i and i+1 of ring k. */
  lemma InsertRings(next: map<Node, Node>, prev: map<Node, Node>, lists: seq<seq<nat>>, k: nat, i: nat, a: nat)
    requires Rings(next, prev, lists) && NoShare(lists) && k < |lists| && i <= |lists[k]| && !Listed(lists, a)
    ensures var x, y := At(lists, k, i), At(lists, k, i + 1);
      Rings(next[Item(a) := y][x := Item(a)], prev[Item(a) := x][y := Item(a)], Insert(lists, k, i, a))
  {
    var x, y := At(lists, k, i), At(lists, k, i + 1);
    var n', p', r := next[Item(a) := y][x := Item(a)], prev[Item(a) := x][y := Item(a)], Insert(lists, k, i, a);
    forall l: nat, j: nat | l < |r| && j <= |r[l]| ensures LinkedAt(n', p', r, l, j) {
      InsertAt(lists, k, i, a, l, j);
      InsertAt(lists, k, i, a, l, j + 1);
      ItemNotListed(lists, a, k, i);
      ItemNotListed(lists, a, k, i + 1);
      if l == k && (j == i || j == i + 1) {
      } else {
        var j' := if l == k && j > i then j - 1 else j;
        assert LinkedAt(next, prev, lists, l, j');
        ItemNotListed(lists, a, l, j');
        ItemNotListed(lists, a, l, j' + 1);
        if At(lists, l, j') == x { AtUnique(lists, l, j', k, i); }
        if At(lists, l, j' + 1) == y { AtUnique(lists, l, j' + 1, k, i + 1); }
      }
    }
  }

  /** Unlinking position i+1 of ring k. */
  lemma DeleteRings(next: map<Node, Node>, prev: map<Node, Node>, lists: seq<seq<nat>>, k: nat, i: nat)
    requires Rings(next, prev, lists) && NoShare(lists) && k < |lists| && i < |lists[k]|
    ensures var x, y := At(lists, k, i), At(lists, k, i + 2);
      Rings(next[x := y], prev[y := x], Delete(lists, k, i))
  {
    var x, y := At(lists, k, i), At(lists, k, i + 2);
    var n', p', r := next[x := y], prev[y := x], Delete(lists, k, i);
    forall l: nat, j: nat | l < |r| && j <= |r[l]| ensures LinkedAt(n', p', r, l, j) {
      DeleteAt(lists, k, i, l, j);
      DeleteAt(lists, k, i, l, j + 1);
      if l == k && j == i {
      } else {
        var j' := if l == k && j > i then j + 1 else j;
        assert LinkedAt(next, prev, lists, l, j');
        if At(lists, l, j') == x { AtUnique(lists, l, j', k, i); }
        if At(lists, l, j' + 1) == y { AtUnique(lists, l, j' + 1, k, i + 2); }
      }
    }
  }

  class Heap {
    var next: map<Node, Node>
    var prev: map<Node, Node>
    ghost var lists: seq<seq<nat>>  // the sequences the rings stand for

    ghost predicate Valid()
      reads this
    {
      Rings(next, prev, lists) && NoShare(lists)
    }

    /** init_list_head on each of n anchors. */
    constructor (n: nat)
      ensures Valid() && lists == seq(n, _ => [])
    {
      next := map k: nat | k < n :: Head(k) := Head(k);
      prev := map k: nat | k < n :: Head(k) := Head(k);
      lists := seq(n, _ => []);
      new;
      assert forall k: nat, i: nat | k < |lists| && i <= |lists[k]| :: LinkedAt(next, prev, lists, k, i);
    }

    /** list_add of a's node behind an arbitrary node `at`. */
    method AddAfter(a: nat, at: Node, ghost k: nat, ghost i: nat)
      requires Valid() && k < |lists| && i <= |lists[k]| && at == At(lists, k, i) && !Listed(lists, a)
      modifies this
      ensures Valid() && lists == Insert(old(lists), k, i, a)
    {
      assert LinkedAt(next, prev, lists, k, i);
      InsertRings(next, prev, lists, k, i, a);
      InsertNoShare(lists, k, i, a);
      var y := next[at];
      next := next[Item(a) := y];
      prev := prev[Item(a) := at];
      ItemNotListed(lists, a, k, i);
      prev := prev[y := Item(a)];
      next := next[at := Item(a)];
      lists := Insert(lists, k, i, a);
    }

    /** list_add: put a in front. */
    method Add(a: nat, k: nat)
      requires Valid() && k < |lists| && !Listed(lists, a)
      modifies this
      ensures Valid() && lists == old(lists)[k := [a] + old(lists)[k]]
    {
      AddAfter(a, Head(k), k, 0);
      assert old(lists)[k][..0] + [a] + old(lists)[k][0..] == [a] + old(lists)[k];
    }

    /** list_append: put a at the end. */
    method Append(a: nat, k: nat)
      requires Valid() && k < |lists| && !Listed(lists, a)
      modifies this
      ensures Valid() && lists == old(lists)[k := old(lists)[k] + [a]]
    {
      ghost var n := |lists[k]|;
      assert LinkedAt(next, prev, lists, k, n);
      AddAfter(a, prev[Head(k)], k, n);
      assert old(lists)[k][..n] + [a] + old(lists)[k][n..] == old(lists)[k] + [a];
    }

    /** list_del: unlink a, wherever it is; no other list changes. */
    method Del(a: nat, ghost k: nat, ghost i: nat)
      requires Valid() && k < |lists| && i < |lists[k]| && lists[k][i] == a
      modifies this
      ensures Valid() && lists == Delete(old(lists), k, i) && !Listed(lists, a)
    {
      assert LinkedAt(next, prev, lists, k, i);
      assert LinkedAt(next, prev, lists, k, i + 1);
      DeleteRings(next, prev, lists, k, i);
      DeleteNoShare(lists, k, i);
      var x, y := prev[Item(a)], next[Item(a)];
      next := next[x := y];
      prev := prev[next[Item(a)] := x];
      lists := Delete(lists, k, i);
    }

    /** list_empty */
    method Empty(k: nat) returns (r: bool)
      requires Valid() && k < |lists|
      ensures r <==> lists[k] == []
    {
      assert LinkedAt(next, prev, lists, k, 0);
      r := next[Head(k)] == Head(k);
    }

    /** list_first_entry of a list that is not empty. */
    method First(k: nat) returns (a: nat)
      requires Valid() && k < |lists| && lists[k] != []
      ensures a == lists[k][0]
    {
      assert LinkedAt(next, prev, lists, k, 0);
      a := next[Head(k)].a;
    }

    /** list_first_entry followed by list_del of it. */
    method TakeFirst(k: nat) returns (a: nat)
      requires Valid() && k < |lists| && lists[k] != []
      modifies this
      ensures Valid() && a == old(lists)[k][0] && lists == old(lists)[k := old(lists)[k][1..]] && !Listed(lists, a)
    {
      hide Rings, NoShare, Listed;
      a := First(k);
      ghost var l := lists[k];
      Del(a, k, 0);
      assert l[..0] + l[0 + 1..] == l[1..];
    }

    /** page_in_list: walk the ring until the node or the head is met. */
    method Contains(a: nat, k: nat) returns (r: bool)
      requires Valid() && k < |lists|
      ensures r <==> a in lists[k]
    {
      ghost var i := 1;
      assert LinkedAt(next, prev, lists, k, 0);
      var x := next[Head(k)];
      while x != Head(k)
        invariant 1 <= i <= |lists[k]| + 1 && x == At(lists, k, i) && a !in lists[k][..i - 1]
        decreases |lists[k]| + 1 - i
      {
        if x == Item(a) {
          return true;
        }
        assert LinkedAt(next, prev, lists, k, i);
        x := next[x];
        i := i + 1;
      }
      return false;
    }
  }
}
