/**
  spin_lock and spin_unlock as steps of load-exclusive, store-exclusive, wait-for-event and store-release, interleaved
  over any number of cores. The exclusive monitor and the event register follow the Arm Architecture Reference Manual
  (DDI 0487, synchronization and semaphores): a store to the lock word clears the monitors of the other cores, and
  clearing a monitor signals an event to its core.
 */
module SpinLock {

  /** Where a core is: outside, at label 1, behind the ldaxr with the value it read, at the stxr, at the wfe, or inside. */
  datatype Pc = Outside | AtLoad | Loaded(v: int) | AtStore | AtWait | Holding

  datatype Core = Core(pc: Pc, monitor: bool, event: bool)

  datatype State = State(word: int, cores: seq<Core>)

  /** One step of core c, or a disturbance of it: Lost drops its monitor (and signals it) at any time. */
  datatype Op = Enter(c: nat) | Load(c: nat) | Branch(c: nat) | StoreOk(c: nat) | StoreFail(c: nat) | Wake(c: nat)
              | Unlock(c: nat) | Lost(c: nat)

  /** spin_lock_init, with n cores outside. */
  function Init(n: nat): State {
    State(0, seq(n, _ => Core(Outside, false, false)))
  }

  function SetCore(s: State, c: nat, k: Core): State
    requires c < |s.cores|
  {
    s.(cores := s.cores[c := k])
  }

  function Disturb(k: Core): Core {
    if k.monitor then k.(monitor := false, event := true) else k
  }

  /** A store of v to the lock word by core c, which moves to pc: every monitor on the word is cleared. */
  function Store(s: State, c: nat, v: int, pc: Pc): State
    requires c < |s.cores|
  {
    State(v, seq(|s.cores|, i requires 0 <= i < |s.cores| =>
      if i == c then s.cores[i].(pc := pc, monitor := false) else Disturb(s.cores[i])))
  }

  /** Only the holder unlocks; a store-exclusive succeeds only with the monitor still set; a wfe ends when an event is there. */
  predicate Enabled(s: State, op: Op) {
    && op.c < |s.cores|
    && match op
       case Enter(c) => s.cores[c].pc == Outside
       case Load(c) => s.cores[c].pc == AtLoad
       case Branch(c) => s.cores[c].pc.Loaded?
       case StoreOk(c) => s.cores[c].pc == AtStore && s.cores[c].monitor
       case StoreFail(c) => s.cores[c].pc == AtStore
       case Wake(c) => s.cores[c].pc == AtWait && s.cores[c].event
       case Unlock(c) => s.cores[c].pc == Holding
       case Lost(c) => true
  }

  function Step(s: State, op: Op): (t: State)
    requires Enabled(s, op)
    ensures |t.cores| == |s.cores|
  {
    var k := s.cores[op.c];
    match op
    case Enter(c) => SetCore(s, c, k.(pc := AtLoad))
    case Load(c) => SetCore(s, c, k.(pc := Loaded(s.word), monitor := true))
    case Branch(c) => SetCore(s, c, k.(pc := if k.pc.v != 0 then AtWait else AtStore))
    case StoreOk(c) => Store(s, c, 1, Holding)
    case StoreFail(c) => SetCore(s, c, k.(pc := AtLoad, monitor := false))
    case Wake(c) => SetCore(s, c, k.(pc := AtLoad, event := false))
    case Unlock(c) => Store(s, c, 0, Outside)
    case Lost(c) => SetCore(s, c, Disturb(k))
  }

  ghost predicate Run(s: State, ops: seq<Op>, t: State)
    decreases |ops|
  {
    if ops == [] then t == s else Enabled(s, ops[0]) && Run(Step(s, ops[0]), ops[1..], t)
  }

  // ---------- the invariant ----------

  /** What a core may rely on: a value read is still there while the monitor is set, and a core that went to
      sleep without an event still watches a taken lock. */
  ghost predicate CoreOk(s: State, c: nat)
    requires c < |s.cores|
  {
    var k := s.cores[c];
    && (k.pc.Loaded? && k.monitor ==> k.pc.v == s.word)
    && (k.pc.Loaded? && !k.monitor ==> k.event)
    && (k.pc == AtStore && k.monitor ==> s.word == 0)
    && (k.pc == AtWait && !k.event ==> k.monitor && s.word == 1)
    && (k.pc == Holding ==> s.word == 1)
  }

  ghost predicate Holds(s: State, c: nat) {
    c < |s.cores| && s.cores[c].pc == Holding
  }

  ghost predicate SomeHolder(s: State) {
    exists c: nat :: Holds(s, c)
  }

  ghost predicate Exclusive(s: State) {
    && (s.word == 0 || s.word == 1)
    && (s.word == 1 <==> SomeHolder(s))
    && forall c: nat, d: nat | Holds(s, c) && Holds(s, d) :: c == d
  }

  ghost predicate Inv(s: State) {
    Exclusive(s) && forall c: nat | c < |s.cores| :: CoreOk(s, c)
  }

  lemma InitInv(n: nat)
    ensures Inv(Init(n))
  {
    assert forall c: nat :: !Holds(Init(n), c);
  }

  lemma StoreAt(s: State, c: nat, v: int, pc: Pc, d: nat)
    requires c < |s.cores| && d < |s.cores|
    ensures Store(s, c, v, pc).cores[d] == if d == c then s.cores[d].(pc := pc, monitor := false) else Disturb(s.cores[d])
  {
  }

  /** A step that does not write the lock word leaves holders alone, so only the moving core has to be checked. */
  lemma QuietStep(s: State, c: nat, k: Core)
    requires Inv(s) && c < |s.cores| && (k.pc == Holding <==> s.cores[c].pc == Holding) && CoreOk(SetCore(s, c, k), c)
    ensures Inv(SetCore(s, c, k))
  {
    var t := SetCore(s, c, k);
    assert forall d: nat :: Holds(t, d) <==> Holds(s, d);
    forall d: nat | d < |t.cores| ensures CoreOk(t, d) {
      assert CoreOk(s, d);
    }
  }

  lemma AcquireStep(s: State, c: nat)
    requires Inv(s) && Enabled(s, StoreOk(c))
    ensures Inv(Step(s, StoreOk(c)))
  {
    var t := Step(s, StoreOk(c));
    assert CoreOk(s, c);
    forall d: nat | d < |t.cores| ensures CoreOk(t, d) && (Holds(t, d) <==> d == c) {
      StoreAt(s, c, 1, Holding, d);
      assert CoreOk(s, d);
    }
    assert Holds(t, c);
  }

  lemma ReleaseStep(s: State, c: nat)
    requires Inv(s) && Enabled(s, Unlock(c))
    ensures Inv(Step(s, Unlock(c)))
  {
    var t := Step(s, Unlock(c));
    assert Holds(s, c);
    forall d: nat | d < |t.cores| ensures CoreOk(t, d) && !Holds(t, d) {
      StoreAt(s, c, 0, Outside, d);
      assert CoreOk(s, d);
      assert Holds(s, d) ==> d == c;
    }
  }

  /** Every enabled step of every core keeps the invariant. */
  lemma StepKeeps(s: State, op: Op)
    requires Inv(s) && Enabled(s, op)
    ensures Inv(Step(s, op))
  {
    assert CoreOk(s, op.c);
    var k := s.cores[op.c];
    match op
    case Enter(c) => QuietStep(s, c, k.(pc := AtLoad));
    case Load(c) => QuietStep(s, c, k.(pc := Loaded(s.word), monitor := true));
    case Branch(c) => QuietStep(s, c, k.(pc := if k.pc.v != 0 then AtWait else AtStore));
    case StoreOk(c) => AcquireStep(s, c);
    case StoreFail(c) => QuietStep(s, c, k.(pc := AtLoad, monitor := false));
    case Wake(c) => QuietStep(s, c, k.(pc := AtLoad, event := false));
    case Unlock(c) => ReleaseStep(s, c);
    case Lost(c) => QuietStep(s, c, Disturb(k));
  }

  lemma {:induction false} RunKeeps(s: State, ops: seq<Op>, t: State)
    requires Inv(s) && Run(s, ops, t)
    ensures Inv(t)
    decreases |ops|
  {
    if ops != [] {
      StepKeeps(s, ops[0]);
      RunKeeps(Step(s, ops[0]), ops[1..], t);
    }
  }

  /** Mutual exclusion over every interleaving: at most one core is inside, and the lock word is 1 exactly when one is. */
  lemma MutualExclusion(n: nat, ops: seq<Op>, t: State)
    requires Run(Init(n), ops, t)
    ensures forall c: nat, d: nat | Holds(t, c) && Holds(t, d) :: c == d
    ensures (t.word == 1 <==> SomeHolder(t)) && (t.word == 0 <==> !SomeHolder(t))
  {
    InitInv(n);
    RunKeeps(Init(n), ops, t);
  }

  // ---------- no lost wake-up, and progress ----------

  /** Whenever the lock is free, every sleeping core already has the event that wakes it. */
  lemma NoLostWakeup(n: nat, ops: seq<Op>, t: State, c: nat)
    requires Run(Init(n), ops, t) && !SomeHolder(t) && c < |t.cores| && t.cores[c].pc == AtWait
    ensures Enabled(t, Wake(c))
  {
    InitInv(n);
    RunKeeps(Init(n), ops, t);
    assert CoreOk(t, c);
  }

  predicate Trying(s: State, c: nat) {
    c < |s.cores| && s.cores[c].pc != Outside && s.cores[c].pc != Holding
  }

  /** The steps by which core c, undisturbed, gets a free lock. */
  function Solo(s: State, c: nat): seq<Op>
    requires Trying(s, c)
  {
    var go := [Load(c), Branch(c), StoreOk(c)];
    match s.cores[c].pc
    case AtLoad => go
    case Loaded(v) => if v == 0 then (if s.cores[c].monitor then [Branch(c), StoreOk(c)] else [Branch(c), StoreFail(c)] + go)
                      else [Branch(c), Wake(c)] + go
    case AtStore => if s.cores[c].monitor then [StoreOk(c)] else [StoreFail(c)] + go
    case AtWait => [Wake(c)] + go
    case _ => []
  }

  lemma RunCons(s: State, op: Op, ops: seq<Op>, t: State)
    requires Enabled(s, op) && Run(Step(s, op), ops, t)
    ensures Run(s, [op] + ops, t)
  {
    assert ([op] + ops)[1..] == ops;
  }

  /** From label 1, with the lock free. */
  lemma SoloFromLoad(s: State, c: nat) returns (t: State)
    requires c < |s.cores| && s.word == 0 && s.cores[c].pc == AtLoad
    ensures Run(s, [Load(c), Branch(c), StoreOk(c)], t) && Holds(t, c)
  {
    var s1 := Step(s, Load(c));
    var s2 := Step(s1, Branch(c));
    t := Step(s2, StoreOk(c));
    assert Run(t, [], t);
    RunCons(s2, StoreOk(c), [], t);
    assert [StoreOk(c)] + [] == [StoreOk(c)];
    RunCons(s1, Branch(c), [StoreOk(c)], t);
    assert [Branch(c)] + [StoreOk(c)] == [Branch(c), StoreOk(c)];
    RunCons(s, Load(c), [Branch(c), StoreOk(c)], t);
    assert [Load(c)] + [Branch(c), StoreOk(c)] == [Load(c), Branch(c), StoreOk(c)];
  }

  /** No state is a dead end: while nobody holds the lock, any core that wants it can get it by its own next steps. */
  lemma Progress(s: State, c: nat) returns (t: State)
    requires Inv(s) && !SomeHolder(s) && Trying(s, c)
    ensures Run(s, Solo(s, c), t) && Holds(t, c)
  {
    assert CoreOk(s, c);
    var go := [Load(c), Branch(c), StoreOk(c)];
    match s.cores[c].pc
    case AtLoad => t := SoloFromLoad(s, c);
    case Loaded(v) =>
      var s1 := Step(s, Branch(c));
      StepKeeps(s, Branch(c));
      assert CoreOk(s1, c);
      if v == 0 && s.cores[c].monitor {
        t := Step(s1, StoreOk(c));
        assert Run(t, [], t);
        RunCons(s1, StoreOk(c), [], t);
        assert [StoreOk(c)] + [] == [StoreOk(c)];
        RunCons(s, Branch(c), [StoreOk(c)], t);
        assert [Branch(c)] + [StoreOk(c)] == [Branch(c), StoreOk(c)];
      } else {
        var op := if v == 0 then StoreFail(c) else Wake(c);
        var s2 := Step(s1, op);
        t := SoloFromLoad(s2, c);
        RunCons(s1, op, go, t);
        RunCons(s, Branch(c), [op] + go, t);
        assert [Branch(c)] + ([op] + go) == [Branch(c), op] + go;
      }
    case AtStore =>
      if s.cores[c].monitor {
        t := Step(s, StoreOk(c));
        assert Run(t, [], t);
        RunCons(s, StoreOk(c), [], t);
        assert [StoreOk(c)] + [] == [StoreOk(c)];
      } else {
        t := SoloFromLoad(Step(s, StoreFail(c)), c);
        RunCons(s, StoreFail(c), go, t);
      }
    case AtWait =>
      t := SoloFromLoad(Step(s, Wake(c)), c);
      RunCons(s, Wake(c), go, t);
  }

  /** That only the holder unlocks is needed: a store of 0 by another core lets a second one in. */
  lemma ForeignUnlockBreaks()
    ensures var s := Init(2);
      exists ops1: seq<Op>, ops2: seq<Op>, t: State, u: State ::
        Run(s, ops1, t) && |t.cores| == 2 && !Holds(t, 1) && Run(Store(t, 1, 0, Outside), ops2, u) && Holds(u, 0) && Holds(u, 1)
  {
    var s := Init(2);
    var s1 := Step(s, Enter(0));
    var t := SoloFromLoad(s1, 0);
    var ops1 := [Enter(0)] + [Load(0), Branch(0), StoreOk(0)];
    RunCons(s, Enter(0), [Load(0), Branch(0), StoreOk(0)], t);
    SoloShape(s1, 0, t);
    var r := Store(t, 1, 0, Outside);
    StoreAt(t, 1, 0, Outside, 0);
    StoreAt(t, 1, 0, Outside, 1);
    var r1 := Step(r, Enter(1));
    var u := SoloFromLoad(r1, 1);
    SoloShape(r1, 1, u);
    var ops2 := [Enter(1)] + [Load(1), Branch(1), StoreOk(1)];
    RunCons(r, Enter(1), [Load(1), Branch(1), StoreOk(1)], u);
    assert Run(s, ops1, t) && Run(Store(t, 1, 0, Outside), ops2, u);
  }

  /** The state after an undisturbed acquisition. */
  lemma SoloShape(s: State, c: nat, t: State)
    requires c < |s.cores| && s.word == 0 && s.cores[c].pc == AtLoad && Run(s, [Load(c), Branch(c), StoreOk(c)], t)
    ensures t.word == 1 && |t.cores| == |s.cores| && forall d: nat | d < |s.cores| && d != c :: t.cores[d].pc == s.cores[d].pc
  {
    var ops := [Load(c), Branch(c), StoreOk(c)];
    assert ops[1..] == [Branch(c), StoreOk(c)] && ops[1..][1..] == [StoreOk(c)] && ops[1..][1..][1..] == [];
    var s1 := Step(s, Load(c));
    var s2 := Step(s1, Branch(c));
    assert Run(s1, ops[1..], t);
    assert Run(s2, [StoreOk(c)], t);
    var last := [StoreOk(c)];
    assert last[1..] == [] && Run(Step(s2, last[0]), last[1..], t);
    assert t == Step(s2, StoreOk(c));
    forall d: nat | d < |s.cores| && d != c ensures t.cores[d].pc == s.cores[d].pc {
      StoreAt(s2, c, 1, Holding, d);
    }
  }
}
