/**
  The order in which the allocators take their locks: a core inside slab_alloc or slab_free holds one container lock and
  may take the buddy lock on top of it; a core inside get_pages or free_pages takes the buddy lock alone. Each lock is the
  one proved in SpinLock, seen here as free or owned by a core.
 */
module LockOrder {
  import opened Kernel
  import SlabSpec

  const CLASSES: nat := SlabSpec.CLASSES

  /** What a core is doing: waiting for, or holding, the lock of container c and then the buddy lock. */
  datatype Place = Idle | WantSlab(c: nat) | HasSlab(c: nat) | WantBoth(c: nat) | HasBoth(c: nat) | WantBuddy | HasBuddy

  /** Owners of the container locks and of the buddy lock, and the place of every core. */
  datatype State = State(slab: seq<Option<nat>>, buddy: Option<nat>, at: seq<Place>)

  datatype Op = CallSlab(i: nat, c: nat) | LockSlab(i: nat) | CallBuddy(i: nat) | LockBuddy(i: nat) | UnlockBuddy(i: nat) | UnlockSlab(i: nat)

  function Init(n: nat): State {
    State(seq(CLASSES, _ => None), None, seq(n, _ => Idle))
  }

  predicate Enabled(s: State, op: Op) {
    && op.i < |s.at| && |s.slab| == CLASSES
    && match op
       case CallSlab(i, c) => s.at[i] == Idle && c < CLASSES
       case LockSlab(i) => s.at[i].WantSlab? && s.at[i].c < CLASSES && s.slab[s.at[i].c] == None
       case CallBuddy(i) => s.at[i] == Idle || s.at[i].HasSlab?
       case LockBuddy(i) => (s.at[i].WantBoth? || s.at[i] == WantBuddy) && s.buddy == None
       case UnlockBuddy(i) => s.at[i].HasBoth? || s.at[i] == HasBuddy
       case UnlockSlab(i) => s.at[i].HasSlab? && s.at[i].c < CLASSES
  }

  function Step(s: State, op: Op): State
    requires Enabled(s, op)
  {
    var p := s.at[op.i];
    match op
    case CallSlab(i, c) => s.(at := s.at[i := WantSlab(c)])
    case LockSlab(i) => s.(at := s.at[i := HasSlab(p.c)], slab := s.slab[p.c := Some(i)])
    case CallBuddy(i) => s.(at := s.at[i := if p.HasSlab? then WantBoth(p.c) else WantBuddy])
    case LockBuddy(i) => s.(at := s.at[i := if p.WantBoth? then HasBoth(p.c) else HasBuddy], buddy := Some(i))
    case UnlockBuddy(i) => s.(at := s.at[i := if p.HasBoth? then HasSlab(p.c) else Idle], buddy := None)
    case UnlockSlab(i) => s.(at := s.at[i := Idle], slab := s.slab[p.c := None])
  }

  ghost predicate Run(s: State, ops: seq<Op>, t: State)
    decreases |ops|
  {
    if ops == [] then t == s else Enabled(s, ops[0]) && Run(Step(s, ops[0]), ops[1..], t)
  }

  predicate OwnsSlab(p: Place, c: nat) {
    (p.HasSlab? || p.WantBoth? || p.HasBoth?) && p.c == c
  }

  predicate OwnsBuddy(p: Place) {
    p.HasBoth? || p == HasBuddy
  }

  /** A lock's owner is exactly the core whose place says so. */
  ghost predicate Inv(s: State) {
    && |s.slab| == CLASSES
    && (forall i, c: nat | 0 <= i < |s.at| && c < CLASSES :: OwnsSlab(s.at[i], c) <==> s.slab[c] == Some(i))
    && (forall i | 0 <= i < |s.at| :: OwnsBuddy(s.at[i]) <==> s.buddy == Some(i))
    && (forall i | 0 <= i < |s.at| :: s.at[i].Idle? || s.at[i].WantBuddy? || s.at[i].HasBuddy? || s.at[i].c < CLASSES)
    && (forall c | 0 <= c < CLASSES && s.slab[c].Some? :: s.slab[c].value < |s.at|)
    && (s.buddy.Some? ==> s.buddy.value < |s.at|)
  }

  lemma StepKeeps(s: State, op: Op)
    requires Inv(s) && Enabled(s, op)
    ensures Inv(Step(s, op)) && |Step(s, op).at| == |s.at|
  {
    var t := Step(s, op);
    forall i, c: nat | 0 <= i < |t.at| && c < CLASSES ensures OwnsSlab(t.at[i], c) <==> t.slab[c] == Some(i) {
      assert OwnsSlab(s.at[i], c) <==> s.slab[c] == Some(i);
      assert OwnsSlab(s.at[op.i], c) <==> s.slab[c] == Some(op.i);
    }
    forall i | 0 <= i < |t.at| ensures OwnsBuddy(t.at[i]) <==> t.buddy == Some(i) {
      assert OwnsBuddy(s.at[i]) <==> s.buddy == Some(i);
      assert OwnsBuddy(s.at[op.i]) <==> s.buddy == Some(op.i);
    }
  }

  lemma {:induction false} RunKeeps(s: State, ops: seq<Op>, t: State)
    requires Inv(s) && Run(s, ops, t)
    ensures Inv(t)
    decreases |ops|
  {
    if ops != [] {
      StepKeeps(s, ops[0]);
      RunKeeps(Step(s, ops[0]), ops[1..], t);
    }
  }

  // ---------- who waits for whom ----------

  /** Core i waits for a lock that core j owns. */
  predicate WaitsFor(s: State, i: nat, j: nat) {
    && i < |s.at| && j < |s.at|
    && ((s.at[i].WantSlab? && s.at[i].c < |s.slab| && s.slab[s.at[i].c] == Some(j))
        || ((s.at[i].WantBoth? || s.at[i] == WantBuddy) && s.buddy == Some(j)))
  }

  /** How far a core is from the last lock in the order. */
  function Rank(p: Place): nat {
    if p.WantSlab? then 2 else if p.WantBoth? || p == WantBuddy then 1 else 0
  }

  /** Waiting always goes up the order: slab locks before the buddy lock, and whoever owns the buddy lock waits for nothing. */
  lemma WaitsDownhill(s: State, i: nat, j: nat)
    requires Inv(s) && WaitsFor(s, i, j)
    ensures Rank(s.at[j]) < Rank(s.at[i])
  {
    if s.at[i].WantSlab? {
      assert OwnsSlab(s.at[j], s.at[i].c);
    } else {
      assert OwnsBuddy(s.at[j]);
    }
  }

  /** Each core of the chain waits for the next. */
  ghost predicate WaitChain(s: State, chain: seq<nat>) {
    forall k | 0 <= k < |chain| - 1 :: WaitsFor(s, chain[k], chain[k + 1])
  }

  lemma {:induction false} ChainDownhill(s: State, chain: seq<nat>)
    requires Inv(s) && WaitChain(s, chain) && |chain| >= 2
    ensures chain[0] < |s.at| && chain[|chain| - 1] < |s.at|
    ensures Rank(s.at[chain[|chain| - 1]]) + |chain| - 1 <= Rank(s.at[chain[0]])
    decreases |chain|
  {
    assert WaitsFor(s, chain[0], chain[1]);
    WaitsDownhill(s, chain[0], chain[1]);
    if |chain| > 2 {
      var rest := chain[1..];
      forall k | 0 <= k < |rest| - 1 ensures WaitsFor(s, rest[k], rest[k + 1]) {
        assert WaitsFor(s, chain[k + 1], chain[k + 2]);
      }
      ChainDownhill(s, rest);
    }
  }

  /** In every reachable state the wait-for relation has no cycle: no chain of waiting cores comes back to its start,
      and none is longer than three cores. */
  lemma NoDeadlock(n: nat, ops: seq<Op>, t: State, chain: seq<nat>)
    requires Run(Init(n), ops, t) && WaitChain(t, chain) && |chain| >= 2
    ensures chain[0] != chain[|chain| - 1] && |chain| <= 3
  {
    RunKeeps(Init(n), ops, t);
    ChainDownhill(t, chain);
  }

  /** Whenever a core waits, some core that is already under way can take its next step. */
  lemma SomeoneMoves(n: nat, ops: seq<Op>, t: State, i: nat)
    requires Run(Init(n), ops, t) && i < |t.at| && Rank(t.at[i]) > 0
    ensures exists op :: Enabled(t, op) && t.at[op.i] != Idle
  {
    RunKeeps(Init(n), ops, t);
    if t.at[i].WantSlab? {
      var c := t.at[i].c;
      if t.slab[c] == None {
        assert Enabled(t, LockSlab(i));
      } else {
        var j := t.slab[c].value;
        assert OwnsSlab(t.at[j], c);
        if t.at[j].WantBoth? { BuddyMoves(t, j); } else if t.at[j].HasBoth? { assert Enabled(t, UnlockBuddy(j)); }
        else { assert Enabled(t, UnlockSlab(j)); }
      }
    } else {
      BuddyMoves(t, i);
    }
  }

  lemma BuddyMoves(t: State, i: nat)
    requires Inv(t) && i < |t.at| && (t.at[i].WantBoth? || t.at[i] == WantBuddy)
    ensures exists op :: Enabled(t, op) && t.at[op.i] != Idle
  {
    if t.buddy == None {
      assert Enabled(t, LockBuddy(i));
    } else {
      assert OwnsBuddy(t.at[t.buddy.value]);
      assert Enabled(t, UnlockBuddy(t.buddy.value));
    }
  }
}
