/** The sleeping locks of sleeplock.c, as clients of sleep and wakeup: acquiresleep waits for the condition that the
    lock is free, under the lock's spinlock and on the lock's address. Processes may do anything else besides. */
module SleepLocks {
  import S = Sleep

  /** Where a process is in acquiresleep or releasesleep of lock l. */
  datatype Pc =
    | Idle
    | Want(l: nat) // to take the spinlock
    | Loop(l: nat) // in the loop: to test, or in sleep
    | Done(l: nat) // has the lock, to let the spinlock go
    | Rel0(l: nat) // to take the spinlock
    | Rel1(l: nat) // to unlock
    | Rel2(l: nat) // to call wakeup
    | Rel3(l: nat) // in wakeup, then to let the spinlock go

  datatype Lock = Lock(locked: bool, pid: nat)

  /** `held` are the sleep locks each process has acquired and not released. */
  datatype State = State(base: S.State, pc: seq<Pc>, lock: seq<Lock>, held: seq<set<nat>>)

  datatype Action =
    | Acquiresleep(l: nat)
    | Releasesleep(l: nat)
    | Go                 // the next step of acquiresleep or releasesleep, outside sleep and wakeup
    | Other(a: S.Action) // a step inside sleep or wakeup, of a scheduler, or of a process busy elsewhere

  /** The index of the spinlock of sleep lock l; its channel is l. */
  function Spin(l: nat): nat {
    l + 1
  }

  predicate IsSpin(s: State, lk: nat) {
    1 <= lk <= |s.lock|
  }

  predicate Sized(s: State) {
    |s.pc| == |s.base.pc| == |s.held| && |s.lock| < |s.base.lock| &&
    forall p :: 0 <= p < |s.pc| ==> s.pc[p].Idle? || s.pc[p].l < |s.lock|
  }

  /** What the next step of process p does to the spinlocks and channels. */
  function Does(s: State, p: nat): S.Action
    requires Sized(s) && p < |s.pc| && !s.pc[p].Idle?
  {
    var l := s.pc[p].l;
    match s.pc[p]
    case Want(_) => S.Acquire(Spin(l))
    case Loop(_) => if s.lock[l].locked then S.Wait(Spin(l), l) else S.Clear(Spin(l), l)
    case Done(_) => S.Release(Spin(l))
    case Rel0(_) => S.Acquire(Spin(l))
    case Rel1(_) => S.Set(Spin(l), l)
    case Rel2(_) => S.Wakeup(l)
    case Rel3(_) => S.Release(Spin(l))
  }

  function Advance(s: State, p: nat): State
    requires Sized(s) && p < |s.pc| && !s.pc[p].Idle?
  {
    var l := s.pc[p].l;
    match s.pc[p]
    case Want(_) => s.(pc := s.pc[p := Loop(l)])
    case Loop(_) =>
      if s.lock[l].locked then s
      else s.(pc := s.pc[p := Done(l)], lock := s.lock[l := Lock(true, p)], held := s.held[p := s.held[p] + {l}])
    case Done(_) => s.(pc := s.pc[p := Idle])
    case Rel0(_) => s.(pc := s.pc[p := Rel1(l)])
    case Rel1(_) =>
      s.(pc := s.pc[p := Rel2(l)], lock := s.lock[l := Lock(false, 0)], held := s.held[p := s.held[p] - {l}])
    case Rel2(_) => s.(pc := s.pc[p := Rel3(l)])
    case Rel3(_) => s.(pc := s.pc[p := Idle])
  }

  /** A process busy elsewhere leaves the spinlocks of sleep locks and the conditions under them alone. */
  predicate Elsewhere(s: State, a: S.Action) {
    (a.Acquire? || a.Release? || a.Set? || a.Clear? || a.Wait?) ==> !IsSpin(s, a.lk)
  }

  predicate Enabled(s: State, p: nat, a: Action) {
    Sized(s) && p < |s.pc| &&
    match a
    case Acquiresleep(l) => s.pc[p].Idle? && s.base.pc[p].Run? && l < |s.lock|
    case Releasesleep(l) => s.pc[p].Idle? && s.base.pc[p].Run? && l < |s.lock| && l in s.held[p]
    case Go => !s.pc[p].Idle? && s.base.pc[p].Run? && S.Enabled(s.base, p, Does(s, p))
    case Other(b) =>
      S.Enabled(s.base, p, b) &&
      (b.Go? || b.Pick? || b.SchedLock? || b.SchedUnlock? || (s.pc[p].Idle? && Elsewhere(s, b)))
  }

  function Apply(s: State, p: nat, a: Action): State
    requires Enabled(s, p, a)
  {
    match a
    case Acquiresleep(l) => s.(pc := s.pc[p := Want(l)])
    case Releasesleep(l) => s.(pc := s.pc[p := Rel0(l)])
    case Go => Advance(s, p).(base := S.Apply(s.base, p, Does(s, p)))
    case Other(b) => s.(base := S.Apply(s.base, p, b))
  }

  datatype Step = Step(p: nat, a: Action)

  ghost predicate Next(s: State, step: Step, s': State) {
    Enabled(s, step.p, step.a) && s' == Apply(s, step.p, step.a)
  }

  ghost predicate Init(s: State) {
    Sized(s) && S.Init(s.base) && (forall p :: 0 <= p < |s.pc| ==> s.pc[p].Idle? && s.held[p] == {}) &&
    forall l: nat :: l < |s.lock| ==> !s.lock[l].locked && (Spin(l), l) in s.base.ready
  }

  ghost predicate IsRun(states: seq<State>, steps: seq<Step>) {
    |states| == |steps| + 1 && Init(states[0]) &&
    forall k :: 0 <= k < |steps| ==> Next(states[k], steps[k], states[k + 1])
  }

  // ---------------------------------------------------------------- the runs of sleep and wakeup beneath

  /** What happens beneath is a run of the machine of sleep and wakeup. */
  lemma {:induction false} Beneath(states: seq<State>, steps: seq<Step>, k: nat)
    returns (below: seq<S.State>, acts: seq<S.Step>)
    requires IsRun(states, steps) && k < |states|
    ensures S.IsRun(below, acts) && below[|acts|] == states[k].base
  {
    hide S.Enabled, S.Apply, S.Init;
    if k == 0 {
      below, acts := [states[0].base], [];
    } else {
      below, acts := Beneath(states, steps, k - 1);
      var s, step := states[k - 1], steps[k - 1];
      assert Next(s, step, states[k]);
      if step.a.Go? || step.a.Other? {
        var act := S.Step(step.p, if step.a.Go? then Does(s, step.p) else step.a.a);
        assert S.Next(below[|acts|], act, states[k].base);
        below, acts := below + [states[k].base], acts + [act];
      }
    }
  }

  // ---------------------------------------------------------------- the invariant

  /** The condition of lock l is that it is free. */
  ghost predicate ReadyOk(s: State, l: nat)
    requires l < |s.lock|
  {
    (Spin(l), l) in s.base.ready <==> !s.lock[l].locked
  }

  ghost predicate HeldOk(s: State, p: nat, l: nat)
    requires p < |s.held| && l < |s.lock|
  {
    l in s.held[p] <==> s.lock[l] == Lock(true, p)
  }

  /** In sleep on lock l, from its test on. */
  predicate InSleep(pc: S.Pc, l: nat) {
    (pc.Sleep0? || pc.Sleep1? || pc.Sleep2? || pc.Asleep? || pc.Woken? || pc.Resumed? || pc.Again?) &&
    pc.lk == Spin(l) && pc.ch == l
  }

  predicate InWakeup(pc: S.Pc, l: nat) {
    pc == S.Wake0(l) || pc == S.Wake1(l) || pc == S.Wake2(l)
  }

  /** The spinlock is held where the code needs it. */
  ghost predicate PcOk(s: State, p: nat)
    requires Sized(s) && p < |s.pc|
  {
    var pc, below := s.pc[p], s.base.pc[p];
    pc.Idle? ||
    match pc
    case Want(l) => below.Run?
    case Loop(l) => InSleep(below, l) || (below.Run? && S.Holds(s.base, p, Spin(l)))
    case Done(l) => below.Run? && S.Holds(s.base, p, Spin(l))
    case Rel0(l) => below.Run? && l in s.held[p]
    case Rel1(l) => below.Run? && S.Holds(s.base, p, Spin(l)) && l in s.held[p]
    case Rel2(l) => below.Run? && S.Holds(s.base, p, Spin(l))
    case Rel3(l) => (below.Run? || InWakeup(below, l)) && S.Holds(s.base, p, Spin(l))
  }

  /** A wakeup of a sleep lock is owed only from its unlocking to the wakeup, by the process doing that. */
  ghost predicate OwedOk(s: State, x: S.Cond)
    requires Sized(s)
  {
    IsSpin(s, x.0) ==>
      x.0 == Spin(x.1) && s.base.lock[x.0].By? && s.base.lock[x.0].p < |s.pc| &&
      var q := s.base.lock[x.0].p;
      s.pc[q] == Rel2(x.1) || (s.pc[q] == Rel3(x.1) && (s.base.pc[q].Wake0? || s.base.pc[q].Wake1?))
  }

  ghost predicate Inv(s: State) {
    Sized(s) && (forall p: nat :: p < |s.pc| ==> PcOk(s, p)) &&
    (forall l: nat :: l < |s.lock| ==> ReadyOk(s, l)) && (forall x :: x in s.base.owed ==> OwedOk(s, x)) &&
    forall p: nat, l: nat :: p < |s.pc| && l < |s.lock| ==> HeldOk(s, p, l)
  }

  lemma InitInv(s: State)
    requires Init(s)
    ensures Inv(s)
  {
  }

  lemma SizedStep(s: State, p: nat, a: Action)
    requires Inv(s) && Enabled(s, p, a)
    ensures Sized(Apply(s, p, a)) && |Apply(s, p, a).pc| == |s.pc| && |Apply(s, p, a).lock| == |s.lock|
  {
  }

  lemma ReadyStep(s: State, p: nat, a: Action, l: nat)
    requires Inv(s) && Enabled(s, p, a) && l < |s.lock|
    ensures Sized(Apply(s, p, a)) && |Apply(s, p, a).lock| == |s.lock| && ReadyOk(Apply(s, p, a), l)
  {
    SizedStep(s, p, a);
    assert ReadyOk(s, l);
    if a.Go? || a.Other? {
      var b := if a.Go? then Does(s, p) else a.a;
      if (b.Set? || b.Clear?) && (b.lk, b.ch) == (Spin(l), l) {
        assert a.Go?;
      } else {
        S.ReadyFrame(s.base, p, b, (Spin(l), l));
      }
    }
  }

  lemma HeldStep(s: State, p: nat, a: Action, q: nat, l: nat)
    requires Inv(s) && Enabled(s, p, a) && q < |s.pc| && l < |s.lock|
    ensures Sized(Apply(s, p, a)) && |Apply(s, p, a).pc| == |s.pc| && |Apply(s, p, a).lock| == |s.lock|
    ensures HeldOk(Apply(s, p, a), q, l)
  {
    hide S.Apply, S.Enabled;
    SizedStep(s, p, a);
    assert HeldOk(s, q, l) && HeldOk(s, p, l) && PcOk(s, p);
  }

  lemma PcStepOther(s: State, p: nat, a: Action, q: nat)
    requires Inv(s) && Enabled(s, p, a) && q < |s.pc| && q != p
    ensures Sized(Apply(s, p, a)) && |Apply(s, p, a).pc| == |s.pc| && PcOk(Apply(s, p, a), q)
  {
    hide S.Apply, S.Enabled;
    SizedStep(s, p, a);
    assert PcOk(s, q);
    if a.Go? || a.Other? {
      S.OthersKeep(s.base, p, if a.Go? then Does(s, p) else a.a, q, if s.pc[q].Idle? then 0 else Spin(s.pc[q].l));
    }
  }

  lemma PcStepOwn(s: State, p: nat, a: Action)
    requires Inv(s) && Enabled(s, p, a)
    ensures Sized(Apply(s, p, a)) && |Apply(s, p, a).pc| == |s.pc| && PcOk(Apply(s, p, a), p)
  {
    SizedStep(s, p, a);
    assert PcOk(s, p);
  }

  lemma OwedStep(s: State, p: nat, a: Action, x: S.Cond)
    requires Inv(s) && Enabled(s, p, a) && x in Apply(s, p, a).base.owed
    ensures Sized(Apply(s, p, a)) && OwedOk(Apply(s, p, a), x)
  {
    hide S.Apply, S.Enabled;
    SizedStep(s, p, a);
    PcStepOwn(s, p, a);
    assert PcOk(s, p);
    assert x in s.base.owed ==> OwedOk(s, x);
    if (a.Go? || a.Other?) && IsSpin(s, x.0) {
      var b := if a.Go? then Does(s, p) else a.a;
      S.OwedFrame(s.base, p, b, x);
      if x in s.base.owed {
        OwedStepOld(s, p, a, b, x);
      }
    }
  }

  lemma OwedStepOther(s: State, p: nat, a: Action, b: S.Action, x: S.Cond)
    requires Inv(s) && Enabled(s, p, a) && (a == Other(b) || (a.Go? && !s.pc[p].Idle? && b == Does(s, p)))
    requires x in s.base.owed && IsSpin(s, x.0) && OwedOk(s, x) && s.base.lock[x.0].p != p
    ensures Sized(Apply(s, p, a)) && OwedOk(Apply(s, p, a), x)
  {
    hide S.Apply, S.Enabled;
    SizedStep(s, p, a);
    S.OthersKeep(s.base, p, b, s.base.lock[x.0].p, x.0);
    assert PcOk(s, s.base.lock[x.0].p);
  }

  lemma OwedStepOwn(s: State, p: nat, a: Action, b: S.Action, x: S.Cond)
    requires Inv(s) && Enabled(s, p, a) && (a == Other(b) || (a.Go? && !s.pc[p].Idle? && b == Does(s, p)))
    requires x in s.base.owed && x in Apply(s, p, a).base.owed
    requires IsSpin(s, x.0) && OwedOk(s, x) && s.base.lock[x.0].p == p
    ensures Sized(Apply(s, p, a)) && OwedOk(Apply(s, p, a), x)
  {
    SizedStep(s, p, a);
    assert PcOk(s, p);
    S.OwedFrame(s.base, p, b, x);
    PcStepOwn(s, p, a);
  }

  lemma OwedStepOld(s: State, p: nat, a: Action, b: S.Action, x: S.Cond)
    requires Inv(s) && Enabled(s, p, a) && (a == Other(b) || (a.Go? && !s.pc[p].Idle? && b == Does(s, p)))
    requires x in s.base.owed && x in Apply(s, p, a).base.owed && IsSpin(s, x.0)
    ensures Sized(Apply(s, p, a)) && OwedOk(Apply(s, p, a), x)
  {
    hide S.Apply, S.Enabled;
    SizedStep(s, p, a);
    assert OwedOk(s, x);
    if s.base.lock[x.0].p == p {
      OwedStepOwn(s, p, a, b, x);
    } else {
      OwedStepOther(s, p, a, b, x);
    }
  }

  lemma StepInv(s: State, step: Step, s': State)
    requires Inv(s) && Next(s, step, s')
    ensures Inv(s')
  {
    hide Apply, Enabled, Inv, PcOk, ReadyOk, OwedOk, HeldOk;
    var p, a := step.p, step.a;
    SizedStep(s, p, a);
    forall q: nat | q < |s'.pc|
      ensures PcOk(s', q)
    {
      if q == p {
        PcStepOwn(s, p, a);
      } else {
        PcStepOther(s, p, a, q);
      }
    }
    forall l: nat | l < |s'.lock|
      ensures ReadyOk(s', l)
    {
      ReadyStep(s, p, a, l);
    }
    forall x | x in s'.base.owed
      ensures OwedOk(s', x)
    {
      OwedStep(s, p, a, x);
    }
    forall q: nat, l: nat | q < |s'.pc| && l < |s'.lock|
      ensures HeldOk(s', q, l)
    {
      HeldStep(s, p, a, q, l);
    }
    InvOf(s');
  }

  lemma InvOf(s: State)
    requires Sized(s) && (forall p: nat :: p < |s.pc| ==> PcOk(s, p)) &&
             (forall l: nat :: l < |s.lock| ==> ReadyOk(s, l))
    requires forall x :: x in s.base.owed ==> OwedOk(s, x)
    requires forall p: nat, l: nat :: p < |s.pc| && l < |s.lock| ==> HeldOk(s, p, l)
    ensures Inv(s)
  {
  }

  lemma {:induction false} RunInv(states: seq<State>, steps: seq<Step>, k: nat)
    requires IsRun(states, steps) && k < |states|
    ensures Inv(states[k])
  {
    hide Inv, Next;
    if k == 0 {
      InitInv(states[0]);
    } else {
      RunInv(states, steps, k - 1);
      StepInv(states[k - 1], steps[k - 1], states[k]);
    }
  }

  // ---------------------------------------------------------------- what follows for every run

  /** A sleep lock has at most one holder. */
  lemma OneHolder(states: seq<State>, steps: seq<Step>, k: nat, p: nat, q: nat, l: nat)
    requires IsRun(states, steps) && k < |states| && p < |states[k].held| && q < |states[k].held|
    requires l < |states[k].lock| && l in states[k].held[p] && l in states[k].held[q]
    ensures p == q && states[k].lock[l] == Lock(true, p)
  {
    RunInv(states, steps, k);
    assert HeldOk(states[k], p, l) && HeldOk(states[k], q, l);
  }

  /** When a sleep lock is free and its spinlock too, nobody sleeps on it or is about to. */
  lemma NobodyStuck(states: seq<State>, steps: seq<Step>, k: nat, p: nat, l: nat)
    requires IsRun(states, steps) && k < |states| && p < |states[k].base.pc| && l < |states[k].lock|
    requires !states[k].lock[l].locked && S.IsFree(states[k].base, Spin(l))
    ensures !S.Waits(states[k].base.pc[p], (Spin(l), l))
  {
    RunInv(states, steps, k);
    assert ReadyOk(states[k], l);
    var below, acts := Beneath(states, steps, k);
    S.NobodyStuck(below, acts, |acts|, Spin(l), l, p);
  }

  /** acquiresleep and releasesleep never do what the locks below do not allow: outside sleep and wakeup, the only
      thing that can hold a process up is a spinlock another process has. */
  lemma NeverBlocked(states: seq<State>, steps: seq<Step>, k: nat, p: nat)
    requires IsRun(states, steps) && k < |states| && p < |states[k].pc| && p < |states[k].base.pc|
    requires !states[k].pc[p].Idle? && states[k].base.pc[p].Run?
    ensures Enabled(states[k], p, Go) ||
            ((states[k].pc[p].Want? || states[k].pc[p].Rel0?) && !S.IsFree(states[k].base, Spin(states[k].pc[p].l)))
  {
    RunInv(states, steps, k);
    var s := states[k];
    assert PcOk(s, p) && ReadyOk(s, s.pc[p].l);
    assert |s.base.lock| > S.PT;
    forall x | x in s.base.owed && x.0 == Spin(s.pc[p].l) && S.Holds(s.base, p, x.0)
      ensures s.pc[p].Rel2?
    {
      assert OwedOk(s, x);
    }
  }
}
