/** sleep and wakeup of proc.c for any clients: a state machine over processes, spinlocks and channels, with one
    step for each lock operation and each shared access. A client waits for a condition (lk, ch): it tests it under
    the spinlock lk and sleeps on the channel ch. */
module Sleep {
  const PT: nat := 0 // ptable.lock

  /** Who holds a spinlock; only ptable.lock is ever held by a scheduler. */
  datatype Holder = Free | By(p: nat) | Scheduler

  /** Where a process is. */
  datatype Pc =
    | Run                       // anywhere else
    | Sleep0(lk: nat, ch: nat)  // in sleep, having found the condition false under lk
    | Sleep1(lk: nat, ch: nat)  // has taken ptable.lock, to let lk go
    | Sleep2(lk: nat, ch: nat)  // to note the channel and give up the CPU
    | Asleep(lk: nat, ch: nat)  // sleeping
    | Woken(lk: nat, ch: nat)   // runnable again
    | Resumed(lk: nat, ch: nat) // on a CPU again, with ptable.lock
    | Again(lk: nat, ch: nat)   // to take lk again
    | Wake0(ch: nat)            // in wakeup, to take ptable.lock
    | Wake1(ch: nat)            // to wake the sleepers
    | Wake2(ch: nat)            // to let ptable.lock go
    | Yielded                   // runnable, from yield
    | Gone                      // exited

  type Cond = (nat, nat)

  /** `ready` are the conditions that hold, of those whose clients promise a wakeup when they make them true (clients
      that promise nothing never take Set, and may then wait and wake whenever they like); `owed` those made true by a
      process that still holds their lock and has made no wakeup of their channel under it; `made` those whose channel
      the holder of their lock has woken. */
  datatype State = State(pc: seq<Pc>, lock: seq<Holder>, ready: set<Cond>, owed: set<Cond>, made: set<Cond>)

  datatype Action =
    | Acquire(lk: nat)
    | Release(lk: nat)
    | Set(lk: nat, ch: nat)   // make the condition true
    | Clear(lk: nat, ch: nat) // make it false
    | Wait(lk: nat, ch: nat)  // find it false and call sleep
    | Wakeup(ch: nat)         // call wakeup
    | WakeNow(ch: nat)        // call wakeup1, with ptable.lock held
    | Kill(q: nat)            // make a sleeper runnable whatever it waits for, with ptable.lock held
    | Yield
    | Exit
    | Go                      // the next step inside sleep or wakeup
    | Pick                    // a scheduler runs the process
    | SchedLock               // a scheduler takes ptable.lock
    | SchedUnlock             // and lets it go

  // ---------------------------------------------------------------- steps

  predicate Holds(s: State, p: nat, lk: nat) {
    lk < |s.lock| && s.lock[lk] == By(p)
  }

  predicate IsFree(s: State, lk: nat) {
    lk < |s.lock| && s.lock[lk].Free?
  }

  /** What sched insists on: ptable.lock and no other lock. */
  predicate OnlyPt(s: State, p: nat) {
    forall k :: 0 <= k < |s.lock| ==> (s.lock[k] == By(p) <==> k == PT)
  }

  /** Whoever lets lk go has woken the channel of every condition it made true under it. */
  predicate Settled(s: State, lk: nat) {
    forall x :: x in s.owed ==> x.0 != lk
  }

  function At(s: State, p: nat, pc: Pc): State
    requires p < |s.pc|
  {
    s.(pc := s.pc[p := pc])
  }

  function Pass(s: State, lk: nat, h: Holder): State
    requires lk < |s.lock|
  {
    s.(lock := s.lock[lk := h], made := set x | x in s.made && x.0 != lk)
  }

  /** wakeup1: everyone asleep on ch becomes runnable. */
  function WakeAll(pc: seq<Pc>, ch: nat): (r: seq<Pc>)
    ensures |r| == |pc|
    ensures forall q :: 0 <= q < |pc| ==>
              r[q] == if pc[q].Asleep? && pc[q].ch == ch then Woken(pc[q].lk, ch) else pc[q]
  {
    seq(|pc|, q requires 0 <= q < |pc| => if pc[q].Asleep? && pc[q].ch == ch then Woken(pc[q].lk, ch) else pc[q])
  }

  function HeldBy(s: State, p: nat): set<nat> {
    set k: nat | k < |s.lock| && s.lock[k] == By(p)
  }

  /** Process p wakes channel ch. */
  function Wake(s: State, p: nat, ch: nat): State {
    s.(pc := WakeAll(s.pc, ch), owed := (set x | x in s.owed && !(x.1 == ch && Holds(s, p, x.0))),
       made := s.made + (set k | k in HeldBy(s, p) :: (k, ch)))
  }

  predicate CanGo(s: State, p: nat)
    requires p < |s.pc|
  {
    match s.pc[p]
    case Sleep0(lk, ch) => if lk == PT then OnlyPt(s, p) else IsFree(s, PT)
    case Sleep1(lk, ch) => Holds(s, p, lk)
    case Sleep2(lk, ch) => OnlyPt(s, p) && PT < |s.lock|
    case Resumed(lk, ch) => Holds(s, p, PT)
    case Again(lk, ch) => IsFree(s, lk)
    case Wake0(ch) => IsFree(s, PT)
    case Wake1(ch) => true
    case Wake2(ch) => Holds(s, p, PT)
    case _ => false
  }

  function Advance(s: State, p: nat): State
    requires p < |s.pc| && |s.lock| > PT && CanGo(s, p)
  {
    match s.pc[p]
    case Sleep0(lk, ch) =>
      if lk == PT then At(Pass(s, PT, Scheduler), p, Asleep(lk, ch)) else At(Pass(s, PT, By(p)), p, Sleep1(lk, ch))
    case Sleep1(lk, ch) => At(Pass(s, lk, Free), p, Sleep2(lk, ch))
    case Sleep2(lk, ch) => At(Pass(s, PT, Scheduler), p, Asleep(lk, ch))
    case Resumed(lk, ch) => if lk == PT then At(s, p, Run) else At(Pass(s, PT, Free), p, Again(lk, ch))
    case Again(lk, ch) => At(Pass(s, lk, By(p)), p, Run)
    case Wake0(ch) => At(Pass(s, PT, By(p)), p, Wake1(ch))
    case Wake1(ch) => At(Wake(s, p, ch), p, Wake2(ch))
    case Wake2(ch) => At(Pass(s, PT, Free), p, Run)
    case _ => s
  }

  /** Process p can take action a. Letting a lock go, in Release, in sleep or to the scheduler, it has settled it. */
  predicate Enabled(s: State, p: nat, a: Action) {
    p < |s.pc| && |s.lock| > PT &&
    match a
    case Acquire(lk) => s.pc[p].Run? && IsFree(s, lk)
    case Release(lk) => s.pc[p].Run? && Holds(s, p, lk) && Settled(s, lk)
    case Set(lk, ch) => s.pc[p].Run? && Holds(s, p, lk)
    case Clear(lk, ch) => s.pc[p].Run? && Holds(s, p, lk)
    case Wait(lk, ch) => s.pc[p].Run? && Holds(s, p, lk) && Settled(s, lk) && (lk, ch) !in s.ready
    case Wakeup(ch) => s.pc[p].Run?
    case WakeNow(ch) => s.pc[p].Run? && Holds(s, p, PT)
    case Kill(q) => s.pc[p].Run? && Holds(s, p, PT) && q < |s.pc| && s.pc[q].Asleep?
    case Yield => s.pc[p].Run? && OnlyPt(s, p) && Settled(s, PT)
    case Exit => s.pc[p].Run? && OnlyPt(s, p) && Settled(s, PT)
    case Go => CanGo(s, p)
    case Pick => (s.pc[p].Woken? || s.pc[p].Yielded?) && s.lock[PT].Scheduler?
    case SchedLock => IsFree(s, PT)
    case SchedUnlock => s.lock[PT].Scheduler?
  }

  function Apply(s: State, p: nat, a: Action): State
    requires Enabled(s, p, a)
  {
    match a
    case Acquire(lk) => Pass(s, lk, By(p))
    case Release(lk) => Pass(s, lk, Free)
    case Set(lk, ch) =>
      s.(ready := s.ready + {(lk, ch)}, owed := if (lk, ch) in s.made then s.owed else s.owed + {(lk, ch)})
    case Clear(lk, ch) => s.(ready := s.ready - {(lk, ch)}, owed := s.owed - {(lk, ch)})
    case Wait(lk, ch) => At(Pass(s, lk, By(p)), p, Sleep0(lk, ch))
    case Wakeup(ch) => At(s, p, Wake0(ch))
    case WakeNow(ch) => Wake(s, p, ch)
    case Kill(q) => At(s, q, Woken(s.pc[q].lk, s.pc[q].ch))
    case Yield => At(Pass(s, PT, Scheduler), p, Yielded)
    case Exit => At(Pass(s, PT, Scheduler), p, Gone)
    case Go => Advance(s, p)
    case Pick => At(Pass(s, PT, By(p)), p, if s.pc[p].Woken? then Resumed(s.pc[p].lk, s.pc[p].ch) else Run)
    case SchedLock => Pass(s, PT, Scheduler)
    case SchedUnlock => Pass(s, PT, Free)
  }

  datatype Step = Step(p: nat, a: Action)

  ghost predicate Next(s: State, step: Step, s': State) {
    Enabled(s, step.p, step.a) && s' == Apply(s, step.p, step.a)
  }

  ghost predicate Init(s: State) {
    |s.lock| > PT && (forall p :: 0 <= p < |s.pc| ==> s.pc[p].Run?) &&
    (forall k :: 0 <= k < |s.lock| ==> s.lock[k].Free?) && s.owed == {} && s.made == {}
  }

  ghost predicate IsRun(states: seq<State>, steps: seq<Step>) {
    |states| == |steps| + 1 && Init(states[0]) &&
    forall k :: 0 <= k < |steps| ==> Next(states[k], steps[k], states[k + 1])
  }

  /** A step of p takes no lock from another process, and moves another process only by waking it. */
  lemma OthersKeep(s: State, p: nat, a: Action, q: nat, k: nat)
    requires Enabled(s, p, a) && q != p && q < |s.pc|
    ensures var s' := Apply(s, p, a);
            |s'.pc| == |s.pc| && |s'.lock| == |s.lock| && (Holds(s, q, k) ==> Holds(s', q, k)) &&
            (s'.pc[q] == s.pc[q] || (s.pc[q].Asleep? && s'.pc[q] == Woken(s.pc[q].lk, s.pc[q].ch)))
  {
  }

  /** Only Set adds to what is owed, and a wakeup takes away what it settles. */
  lemma OwedFrame(s: State, p: nat, a: Action, x: Cond)
    requires Enabled(s, p, a) && x in Apply(s, p, a).owed
    ensures x in s.owed || a == Set(x.0, x.1)
    ensures a.Go? && s.pc[p].Wake1? && x.1 == s.pc[p].ch ==> !Holds(s, p, x.0)
  {
  }

  /** Only Set and Clear change which conditions hold. */
  lemma ReadyFrame(s: State, p: nat, a: Action, x: Cond)
    requires Enabled(s, p, a) && ((a.Set? || a.Clear?) ==> (a.lk, a.ch) != x)
    ensures x in Apply(s, p, a).ready <==> x in s.ready
  {
  }

  // ---------------------------------------------------------------- the invariant

  /** From having found the condition false to being woken. */
  predicate Waits(pc: Pc, x: Cond) {
    (pc.Sleep0? || pc.Sleep1? || pc.Sleep2? || pc.Asleep?) && (pc.lk, pc.ch) == x
  }

  /** The locks a process holds by where it is. */
  predicate Keeps(pc: Pc, k: nat) {
    match pc
    case Sleep0(lk, ch) => k == lk
    case Sleep1(lk, ch) => k == lk || k == PT
    case Sleep2(lk, ch) => k == PT
    case Resumed(lk, ch) => k == PT
    case Wake1(ch) => k == PT
    case Wake2(ch) => k == PT
    case _ => false
  }

  ghost predicate PcOk(s: State, p: nat)
    requires p < |s.pc|
  {
    (s.pc[p].Sleep1? ==> s.pc[p].lk != PT) && forall k: nat :: Keeps(s.pc[p], k) ==> Holds(s, p, k)
  }

  /** A condition somebody waits for holds only while its wakeup is owed. */
  ghost predicate WaitOk(s: State, p: nat)
    requires p < |s.pc|
  {
    forall x :: Waits(s.pc[p], x) && x in s.ready ==> x in s.owed
  }

  /** A wakeup is owed by the holder of the lock, who is not in sleep with it. */
  ghost predicate OwedOk(s: State, x: Cond) {
    x.0 < |s.lock| && s.lock[x.0].By? && s.lock[x.0].p < |s.pc| && !Keeps(s.pc[s.lock[x.0].p], x.0)
  }

  /** While the holder of the lock has woken the channel, nobody waits for the condition. */
  ghost predicate MadeOk(s: State, x: Cond) {
    x.0 < |s.lock| && s.lock[x.0].By? && forall p :: 0 <= p < |s.pc| ==> !Waits(s.pc[p], x)
  }

  ghost predicate Inv(s: State) {
    |s.lock| > PT && (forall p: nat :: p < |s.pc| ==> PcOk(s, p) && WaitOk(s, p)) &&
    (forall x :: x in s.owed ==> OwedOk(s, x)) && forall x :: x in s.made ==> MadeOk(s, x)
  }

  lemma InitInv(s: State)
    requires Init(s)
    ensures Inv(s)
  {
  }

  // ---------------------------------------------------------------- one lemma per kind of step

  /** Process p goes on to pc, waiting for nothing it did not wait for and keeping no new lock. */
  lemma MoveKeeps(s: State, p: nat, pc: Pc)
    requires Inv(s) && p < |s.pc| && !pc.Sleep1?
    requires (forall x :: Waits(pc, x) ==> Waits(s.pc[p], x)) && forall k :: Keeps(pc, k) ==> Keeps(s.pc[p], k)
    ensures Inv(At(s, p, pc))
  {
    var s' := At(s, p, pc);
    forall q: nat | q < |s'.pc|
      ensures PcOk(s', q) && WaitOk(s', q)
    {
      assert PcOk(s, q) && WaitOk(s, q);
    }
    forall x | x in s'.owed
      ensures OwedOk(s', x)
    {
      assert OwedOk(s, x);
    }
    forall x | x in s'.made
      ensures MadeOk(s', x)
    {
      assert MadeOk(s, x);
    }
  }

  /** A settled lock that is p's or nobody's passes on, and p goes on to pc: it keeps no lock it did not, unless this
      one, and waits for nothing it did not, unless for a condition under this lock that is false. */
  lemma PassKeeps(s: State, p: nat, lk: nat, h: Holder, pc: Pc)
    requires Inv(s) && p < |s.pc| && lk < |s.lock| && (s.lock[lk] == By(p) || !s.lock[lk].By?) && Settled(s, lk)
    requires pc.Sleep1? ==> pc.lk != PT
    requires forall x :: Waits(pc, x) ==> Waits(s.pc[p], x) || (x.0 == lk && x !in s.ready)
    requires forall k :: Keeps(pc, k) ==> if k == lk then h == By(p) else Keeps(s.pc[p], k)
    ensures Inv(At(Pass(s, lk, h), p, pc))
  {
    var s' := At(Pass(s, lk, h), p, pc);
    forall q: nat | q < |s'.pc|
      ensures PcOk(s', q) && WaitOk(s', q)
    {
      assert PcOk(s, q) && WaitOk(s, q);
    }
    forall x | x in s'.owed
      ensures OwedOk(s', x)
    {
      assert OwedOk(s, x);
    }
    forall x | x in s'.made
      ensures MadeOk(s', x)
    {
      assert MadeOk(s, x);
    }
  }

  /** A lock nobody has is settled, and so is one whose holder is in sleep or wakeup with it. */
  lemma KeptSettled(s: State, p: nat, lk: nat)
    requires Inv(s) && p < |s.pc| && lk < |s.lock| && (!s.lock[lk].By? || Keeps(s.pc[p], lk))
    ensures Settled(s, lk) && (s.lock[lk] == By(p) || !s.lock[lk].By?)
  {
    assert PcOk(s, p);
    forall x | x in s.owed
      ensures x.0 != lk
    {
      assert OwedOk(s, x);
    }
  }

  lemma SetKeeps(s: State, p: nat, lk: nat, ch: nat)
    requires Inv(s) && Enabled(s, p, Set(lk, ch))
    ensures Inv(Apply(s, p, Set(lk, ch)))
  {
    var s' := Apply(s, p, Set(lk, ch));
    assert (lk, ch) in s.made ==> MadeOk(s, (lk, ch));
    forall q: nat | q < |s'.pc|
      ensures PcOk(s', q) && WaitOk(s', q)
    {
      assert PcOk(s, q) && WaitOk(s, q);
    }
    forall x | x in s'.owed
      ensures OwedOk(s', x)
    {
      assert x in s.owed ==> OwedOk(s, x);
    }
    forall x | x in s'.made
      ensures MadeOk(s', x)
    {
      assert MadeOk(s, x);
    }
  }

  lemma ClearKeeps(s: State, p: nat, lk: nat, ch: nat)
    requires Inv(s) && Enabled(s, p, Clear(lk, ch))
    ensures Inv(Apply(s, p, Clear(lk, ch)))
  {
    var s' := Apply(s, p, Clear(lk, ch));
    forall q: nat | q < |s'.pc|
      ensures PcOk(s', q) && WaitOk(s', q)
    {
      assert PcOk(s, q) && WaitOk(s, q);
    }
    forall x | x in s'.owed
      ensures OwedOk(s', x)
    {
      assert OwedOk(s, x);
    }
    forall x | x in s'.made
      ensures MadeOk(s', x)
    {
      assert MadeOk(s, x);
    }
  }

  /** Whoever wakes ch with ptable.lock leaves nobody asleep on it, and, for each lock it holds besides, nobody
      between having found a condition of ch false under that lock and sleeping. */
  lemma WakeReaches(s: State, p: nat, ch: nat, q: nat, lk: nat)
    requires Inv(s) && p < |s.pc| && q < |s.pc| && Holds(s, p, PT) && (s.pc[p].Run? || s.pc[p].Wake1?)
    ensures var pc := Wake(s, p, ch).pc[q]; !(pc.Asleep? && pc.ch == ch) && (Holds(s, p, lk) ==> !Waits(pc, (lk, ch)))
  {
    assert PcOk(s, q) && PcOk(s, p);
    assert Keeps(s.pc[q], lk) ==> Holds(s, q, lk);
    assert Keeps(s.pc[q], PT) ==> Holds(s, q, PT);
  }

  lemma WakeKeeps(s: State, p: nat, ch: nat)
    requires Inv(s) && p < |s.pc| && Holds(s, p, PT) && (s.pc[p].Run? || s.pc[p].Wake1?)
    ensures Inv(Wake(s, p, ch))
  {
    var s' := Wake(s, p, ch);
    forall q: nat | q < |s'.pc|
      ensures PcOk(s', q) && WaitOk(s', q)
    {
      assert PcOk(s, q) && WaitOk(s, q);
      forall x | Waits(s'.pc[q], x) && x in s'.ready
        ensures x in s'.owed
      {
        WakeReaches(s, p, ch, q, x.0);
      }
    }
    forall x | x in s'.owed
      ensures OwedOk(s', x)
    {
      assert OwedOk(s, x);
    }
    forall x | x in s'.made
      ensures MadeOk(s', x)
    {
      assert x in s.made ==> MadeOk(s, x);
      forall q: nat | q < |s'.pc|
        ensures !Waits(s'.pc[q], x)
      {
        WakeReaches(s, p, ch, q, x.0);
      }
    }
  }

  lemma GoKeeps(s: State, p: nat)
    requires Inv(s) && p < |s.pc| && CanGo(s, p)
    ensures Inv(Advance(s, p))
  {
    hide Inv, OnlyPt, Settled;
    InvAt(s, p);
    match s.pc[p]
    case Sleep0(lk, ch) =>
      KeptSettled(s, p, PT);
      if lk == PT {
        PassKeeps(s, p, PT, Scheduler, Asleep(lk, ch));
      } else {
        PassKeeps(s, p, PT, By(p), Sleep1(lk, ch));
      }
    case Sleep1(lk, ch) =>
      KeptSettled(s, p, lk);
      PassKeeps(s, p, lk, Free, Sleep2(lk, ch));
    case Sleep2(lk, ch) =>
      KeptSettled(s, p, PT);
      PassKeeps(s, p, PT, Scheduler, Asleep(lk, ch));
    case Resumed(lk, ch) =>
      KeptSettled(s, p, PT);
      if lk == PT {
        MoveKeeps(s, p, Run);
      } else {
        PassKeeps(s, p, PT, Free, Again(lk, ch));
      }
    case Again(lk, ch) =>
      KeptSettled(s, p, lk);
      PassKeeps(s, p, lk, By(p), Run);
    case Wake0(ch) =>
      KeptSettled(s, p, PT);
      PassKeeps(s, p, PT, By(p), Wake1(ch));
    case Wake1(ch) =>
      WakeKeeps(s, p, ch);
      MoveKeeps(Wake(s, p, ch), p, Wake2(ch));
    case Wake2(ch) =>
      KeptSettled(s, p, PT);
      PassKeeps(s, p, PT, Free, Run);
  }

  lemma InvAt(s: State, p: nat)
    requires Inv(s) && p < |s.pc|
    ensures |s.lock| > PT && PcOk(s, p)
  {
  }

  lemma StepInv(s: State, step: Step, s': State)
    requires Inv(s) && Next(s, step, s')
    ensures Inv(s')
  {
    hide Inv, Advance;
    var p := step.p;
    InvAt(s, p);
    match step.a
    case Acquire(lk) =>
      KeptSettled(s, p, lk);
      PassKeeps(s, p, lk, By(p), s.pc[p]);
      assert s.pc[p := s.pc[p]] == s.pc;
    case Release(lk) =>
      PassKeeps(s, p, lk, Free, s.pc[p]);
      assert s.pc[p := s.pc[p]] == s.pc;
    case Set(lk, ch) => SetKeeps(s, p, lk, ch);
    case Clear(lk, ch) => ClearKeeps(s, p, lk, ch);
    case Wait(lk, ch) => PassKeeps(s, p, lk, By(p), Sleep0(lk, ch));
    case Wakeup(ch) => MoveKeeps(s, p, Wake0(ch));
    case WakeNow(ch) => WakeKeeps(s, p, ch);
    case Kill(q) => MoveKeeps(s, q, Woken(s.pc[q].lk, s.pc[q].ch));
    case Yield => PassKeeps(s, p, PT, Scheduler, Yielded);
    case Exit => PassKeeps(s, p, PT, Scheduler, Gone);
    case Go => GoKeeps(s, p);
    case Pick =>
      KeptSettled(s, p, PT);
      PassKeeps(s, p, PT, By(p), s'.pc[p]);
    case SchedLock =>
      KeptSettled(s, p, PT);
      PassKeeps(s, p, PT, Scheduler, s.pc[p]);
      assert s.pc[p := s.pc[p]] == s.pc;
    case SchedUnlock =>
      KeptSettled(s, p, PT);
      PassKeeps(s, p, PT, Free, s.pc[p]);
      assert s.pc[p := s.pc[p]] == s.pc;
  }

  lemma {:induction false} RunInv(states: seq<State>, steps: seq<Step>, k: nat)
    requires IsRun(states, steps) && k < |states|
    ensures Inv(states[k])
  {
    hide Inv, Next;
    if k == 0 {
      InitInv(states[0]);
    } else {
      RunInv(states, steps, k - 1);
      StepInv(states[k - 1], steps[k - 1], states[k]);
    }
  }

  // ---------------------------------------------------------------- what follows for every run

  /** The step wakes channel ch, and the process that takes it holds lk. */
  predicate WakesUnder(s: State, step: Step, lk: nat, ch: nat) {
    step.p < |s.pc| && Holds(s, step.p, lk) && (step.a == WakeNow(ch) || (step.a.Go? && s.pc[step.p] == Wake1(ch)))
  }

  /** A wakeup of ch by a process holding lk leaves nobody waiting for (lk, ch): neither asleep, nor between
      having found the condition false and sleeping. Every lk, ptable.lock included, and every ch. */
  lemma WakeupWakesAll(states: seq<State>, steps: seq<Step>, k: nat, lk: nat, ch: nat, q: nat)
    requires IsRun(states, steps) && k < |steps| && WakesUnder(states[k], steps[k], lk, ch) && q < |states[k].pc|
    ensures |states[k + 1].pc| == |states[k].pc| && !Waits(states[k + 1].pc[q], (lk, ch))
  {
    hide Inv;
    RunInv(states, steps, k);
    var s, p := states[k], steps[k].p;
    assert Next(s, steps[k], states[k + 1]);
    InvAt(s, p);
    assert Keeps(s.pc[p], PT) ==> Holds(s, p, PT);
    WakeReaches(s, p, ch, q, lk);
  }

  predicate WaitsAt(states: seq<State>, k: nat, p: nat, x: Cond) {
    k < |states| && p < |states[k].pc| && Waits(states[k].pc[p], x)
  }

  /** No lost wakeup: while a process waits for (lk, ch), from its test of the condition on, no wakeup of ch is made
      under lk. */
  lemma NoLostWakeup(states: seq<State>, steps: seq<Step>, i: nat, j: nat, p: nat, lk: nat, ch: nat)
    requires IsRun(states, steps) && i <= j < |states| && forall k: nat :: i <= k <= j ==>
             WaitsAt(states, k, p, (lk, ch))
    ensures forall k :: i <= k < j ==> !WakesUnder(states[k], steps[k], lk, ch)
  {
    hide Next;
    forall k | i <= k < j
      ensures !WakesUnder(states[k], steps[k], lk, ch)
    {
      assert WaitsAt(states, k, p, (lk, ch)) && WaitsAt(states, k + 1, p, (lk, ch));
      if WakesUnder(states[k], steps[k], lk, ch) {
        WakeupWakesAll(states, steps, k, lk, ch, p);
        assert false;
      }
    }
  }

  /** Nobody is stuck: whenever nobody holds lk, nobody waits for a condition under lk that is true. */
  lemma NobodyStuck(states: seq<State>, steps: seq<Step>, k: nat, lk: nat, ch: nat, p: nat)
    requires IsRun(states, steps) && k < |states| && lk < |states[k].lock| && !states[k].lock[lk].By?
    requires p < |states[k].pc| && (lk, ch) in states[k].ready
    ensures !Waits(states[k].pc[p], (lk, ch))
  {
    RunInv(states, steps, k);
    var s := states[k];
    assert WaitOk(s, p);
    assert (lk, ch) in s.owed ==> OwedOk(s, (lk, ch));
  }

  /** In a call of sleep on ch with lock lk. */
  predicate InSleep(pc: Pc, lk: nat, ch: nat) {
    (pc.Sleep0? || pc.Sleep1? || pc.Sleep2? || pc.Asleep? || pc.Woken? || pc.Resumed? || pc.Again?) &&
    pc.lk == lk && pc.ch == ch
  }

  lemma SleepStep(s: State, step: Step, s': State, p: nat, lk: nat, ch: nat)
    requires Next(s, step, s') && p < |s.pc| && InSleep(s.pc[p], lk, ch)
    ensures |s'.pc| == |s.pc| && (InSleep(s'.pc[p], lk, ch) || (s'.pc[p].Run? && Holds(s', p, lk)))
  {
    hide Wake, HeldBy;
    if step.p != p {
      hide Apply, Enabled;
      OthersKeep(s, step.p, step.a, p, lk);
    }
  }

  /** sleep returns with the lock it was given held again, whichever lock that is: a process that called sleep at
      step i and has not been anywhere else since is in it still, or has just returned and has lk. */
  lemma {:induction false} SleepReturnsLocked(states: seq<State>, steps: seq<Step>, i: nat, j: nat, p: nat, lk: nat,
      ch: nat)
    requires IsRun(states, steps) && i < j < |states| && steps[i] == Step(p, Wait(lk, ch))
    requires forall k :: i < k < j ==> p < |states[k].pc| && !states[k].pc[p].Run?
    ensures p < |states[j].pc|
    ensures InSleep(states[j].pc[p], lk, ch) || (states[j].pc[p].Run? && Holds(states[j], p, lk))
    decreases j
  {
    assert Next(states[j - 1], steps[j - 1], states[j]);
    if j - 1 > i {
      hide Next;
      SleepReturnsLocked(states, steps, i, j - 1, p, lk, ch);
      SleepStep(states[j - 1], steps[j - 1], states[j], p, lk, ch);
    }
  }

  // A wakeup made without the lock: process 0 finds (1, ch) false and calls sleep; process 1 wakes ch without
  // holding lock 1; process 0 then sleeps.

  function Two(pc0: Pc, pc1: Pc, pt: Holder, lk: Holder, made: set<Cond>): State {
    State([pc0, pc1], [pt, lk], {}, {}, made)
  }

  function LostStates(ch: nat): (r: seq<State>)
    ensures |r| == 10
  {
    [Two(Run, Run, Free, Free, {}), Two(Run, Run, Free, By(0), {}), Two(Sleep0(1, ch), Run, Free, By(0), {}),
     Two(Sleep0(1, ch), Wake0(ch), Free, By(0), {}), Two(Sleep0(1, ch), Wake1(ch), By(1), By(0), {}),
     Two(Sleep0(1, ch), Wake2(ch), By(1), By(0), {(PT, ch)}), Two(Sleep0(1, ch), Run, Free, By(0), {}),
     Two(Sleep1(1, ch), Run, By(0), By(0), {}), Two(Sleep2(1, ch), Run, By(0), Free, {}),
     Two(Asleep(1, ch), Run, Scheduler, Free, {})]
  }

  function LostSteps(ch: nat): (r: seq<Step>)
    ensures |r| == 9
  {
    [Step(0, Acquire(1)), Step(0, Wait(1, ch)), Step(1, Wakeup(ch)), Step(1, Go), Step(1, Go), Step(1, Go),
     Step(0, Go), Step(0, Go), Step(0, Go)]
  }

  lemma LostWake(ch: nat)
    ensures Next(LostStates(ch)[4], LostSteps(ch)[4], LostStates(ch)[5])
  {
    var s := LostStates(ch)[4];
    assert HeldBy(s, 1) == {PT};
    var s' := Wake(s, 1, ch);
    assert s'.made == {(PT, ch)} && s'.owed == {} && s'.pc == s.pc;
  }

  lemma LostCalls(ch: nat, k: nat)
    requires k < 3
    ensures Next(LostStates(ch)[k], LostSteps(ch)[k], LostStates(ch)[k + 1])
  {
    hide Wake, Advance, CanGo;
  }

  lemma LostGoes(ch: nat, k: nat)
    requires 3 <= k < 9 && k != 4
    ensures Next(LostStates(ch)[k], LostSteps(ch)[k], LostStates(ch)[k + 1])
  {
    hide Wake;
  }

  lemma LostNext(ch: nat, k: nat)
    requires k < 9
    ensures Next(LostStates(ch)[k], LostSteps(ch)[k], LostStates(ch)[k + 1])
  {
    if k == 4 {
      LostWake(ch);
    } else if k < 3 {
      LostCalls(ch, k);
    } else {
      LostGoes(ch, k);
    }
  }

  /** Holding lk is what it takes: a wakeup made without it can be lost. */
  lemma LostWithoutLock(ch: nat)
    ensures var states, steps := LostStates(ch), LostSteps(ch);
            IsRun(states, steps) && steps[4] == Step(1, Go) && states[4].pc[1] == Wake1(ch) &&
            (forall k: nat :: 2 <= k <= 9 ==> WaitsAt(states, k, 0, (1, ch))) && states[9].pc[0] == Asleep(1, ch)
  {
    forall k | 0 <= k < 9
      ensures Next(LostStates(ch)[k], LostSteps(ch)[k], LostStates(ch)[k + 1])
    {
      LostNext(ch, k);
    }
    hide Next;
  }
}
