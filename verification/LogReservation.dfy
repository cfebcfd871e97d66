/** begin_op's space reservation: when it keeps log_write from running out of log, and when it does not. */
module LogReservation {
  import opened Basics
  import opened LogDisk
  import opened LogRuns

  /** Blocks the open operations may still add. */
  function Unused(open: seq<Op>): int {
    if open == [] then 0 else Unused(open[..|open| - 1]) + (MAXOPBLOCKS - open[|open| - 1].used)
  }

  /** Each operation adds at most MAXOPBLOCKS blocks to the log: what begin_op counts on. */
  ghost predicate InBudget(s: State, step: Step) {
    step.LogWrite? && step.j < |s.open| && step.b !in s.lh ==> s.open[step.j].used < MAXOPBLOCKS
  }

  ghost predicate IsBudgetRun(l: Layout, base: Disk, states: seq<State>, steps: seq<Step>) {
    IsRun(l, base, states, steps) && forall k :: 0 <= k < |steps| ==> InBudget(states[k], steps[k])
  }

  ghost predicate Reserved(s: State) {
    (forall j :: 0 <= j < |s.open| ==> s.open[j].used <= MAXOPBLOCKS) && |s.lh| + Unused(s.open) <= LOGSIZE
  }

  lemma {:induction false} UnusedUpdate(open: seq<Op>, j: nat, op: Op)
    requires j < |open|
    ensures Unused(open[j := op]) == Unused(open) + open[j].used - op.used
  {
    var n := |open| - 1;
    if j < n {
      UnusedUpdate(open[..n], j, op);
      assert open[j := op][..n] == open[..n][j := op];
    } else {
      assert open[j := op][..n] == open[..n];
    }
  }

  lemma {:induction false} UnusedRemove(open: seq<Op>, j: nat)
    requires j < |open|
    ensures Unused(RemoveAt(open, j)) == Unused(open) - (MAXOPBLOCKS - open[j].used)
  {
    var n := |open| - 1;
    if j < n {
      UnusedRemove(open[..n], j);
      assert RemoveAt(open, j)[..n - 1] == RemoveAt(open[..n], j);
    } else {
      assert RemoveAt(open, j) == open[..n];
    }
  }

  lemma {:induction false} UnusedBounds(open: seq<Op>)
    requires forall j :: 0 <= j < |open| ==> open[j].used <= MAXOPBLOCKS
    ensures 0 <= Unused(open) <= |open| * MAXOPBLOCKS
    ensures forall j :: 0 <= j < |open| ==> MAXOPBLOCKS - open[j].used <= Unused(open)
  {
    if open != [] {
      UnusedBounds(open[..|open| - 1]);
    }
  }

  lemma LogWriteReserved(l: Layout, s: State, step: Step, s': State)
    requires step.LogWrite? && Reserved(s) && Next(l, s, step, s') && InBudget(s, step)
    ensures Reserved(s')
  {
    hide Unused;
    UnusedUpdate(s.open, step.j, s'.open[step.j]);
  }

  lemma BeginReserved(l: Layout, s: State, step: Step, s': State)
    requires step.BeginOp? && Reserved(s) && Next(l, s, step, s')
    ensures Reserved(s')
  {
    assert s'.open[..|s.open|] == s.open;
    UnusedBounds(s.open);
  }

  lemma EndReserved(l: Layout, s: State, step: Step, s': State)
    requires step.EndOp? && Reserved(s) && Next(l, s, step, s')
    ensures Reserved(s')
  {
    hide Unused;
    UnusedRemove(s.open, step.j);
  }

  lemma CrashReserved(s: State, s': State)
    requires Reserved(s) && s'.open == [] && s'.lh == []
    ensures Reserved(s')
  {
  }

  lemma ReservedNext(l: Layout, s: State, step: Step, s': State)
    requires Reserved(s) && Next(l, s, step, s') && InBudget(s, step)
    ensures Reserved(s')
  {
    hide CommitWrites, RecoverWrites, Apply, GoodList, AfterLogWrite, Unused;
    match step
    case BeginOp(op) => BeginReserved(l, s, step, s');
    case LogWrite(j, b, d) => LogWriteReserved(l, s, step, s');
    case EndOp(j) => EndReserved(l, s, step, s');
    case Crash => CrashReserved(s, s');
    case _ =>
  }

  /** In every reachable state the logged blocks and the unused reservations fit in LOGSIZE. */
  lemma {:induction false} ReservationHolds(l: Layout, base: Disk, states: seq<State>, steps: seq<Step>, k: nat)
    requires IsBudgetRun(l, base, states, steps) && k < |states|
    ensures Reserved(states[k])
  {
    if k > 0 {
      ReservationHolds(l, base, states, steps, k - 1);
      ReservedNext(l, states[k - 1], steps[k - 1], states[k]);
    }
  }

  // ---------------------------------------------------------------- begin_op does not wait for ever

  ghost predicate Admits(l: Layout, s: State, op: nat) {
    exists s' :: Next(l, s, BeginOp(op), s')
  }

  /** The last end_op starts a commit, and a commit empties the log. */
  lemma IdleNext(l: Layout, base: Disk, s: State, step: Step, s': State)
    requires Inv(l, base, s) && Next(l, s, step, s')
    requires s.phase.Running? && s.open == [] ==> s.lh == []
    ensures s'.phase.Running? && s'.open == [] ==> s'.lh == []
  {
    hide CommitWrites, RecoverWrites, Apply, GoodList, Inv;
    if step.RecoverEnd? {
      RecoveringClean(l, base, s);
    }
  }

  lemma RecoveringClean(l: Layout, base: Disk, s: State)
    requires Inv(l, base, s) && s.phase.Recovering?
    ensures s.lh == []
  {
  }

  lemma {:induction false} IdleIsEmpty(l: Layout, base: Disk, states: seq<State>, steps: seq<Step>, k: nat)
    requires IsRun(l, base, states, steps) && k < |states|
    ensures states[k].phase.Running? && states[k].open == [] ==> states[k].lh == []
  {
    hide Inv, Next;
    if k > 0 {
      IdleIsEmpty(l, base, states, steps, k - 1);
      RunInv(l, base, states, steps, k - 1);
      IdleNext(l, base, states[k - 1], steps[k - 1], states[k]);
    }
  }

  /** begin_op lets an operation in exactly when nothing is being committed or recovered and the log has room for one
      more reservation. Where none is open it always has: so begin_op never waits but for a commit, a recovery or an
      end_op still to come, and right after a commit it waits for nothing. */
  lemma BeginOpAdmits(l: Layout, base: Disk, states: seq<State>, steps: seq<Step>, k: nat, op: nat)
    requires IsRun(l, base, states, steps) && k < |states| && op !in states[k].begun
    ensures Admits(l, states[k], op) <==>
              states[k].phase.Running? && |states[k].lh| + (|states[k].open| + 1) * MAXOPBLOCKS <= LOGSIZE
    ensures states[k].phase.Running? && states[k].open == [] ==> Admits(l, states[k], op)
    ensures k > 0 && steps[k - 1].CommitEnd? ==> Admits(l, states[k], op)
  {
    hide CommitWrites, RecoverWrites, Apply, GoodList, Inv;
    var s := states[k];
    IdleIsEmpty(l, base, states, steps, k);
    if s.phase.Running? && |s.lh| + (|s.open| + 1) * MAXOPBLOCKS <= LOGSIZE {
      assert Next(l, s, BeginOp(op), s.(open := s.open + [Op(op, 0)], begun := s.begun + {op}));
    }
    if k > 0 && steps[k - 1].CommitEnd? {
      assert Next(l, states[k - 1], steps[k - 1], states[k]);
      RunInv(l, base, states, steps, k - 1);
      InvWriting(l, base, states[k - 1]);
    }
  }

  // ---------------------------------------------------------------- log_write does not run out

  /** No operation with reservation left ever sees log_write panic. */
  ghost predicate NeverPanics(l: Layout, base: Disk) {
    forall states: seq<State>, steps: seq<Step>, k: nat, j: nat ::
      IsBudgetRun(l, base, states, steps) && k < |states| &&
      j < |states[k].open| && states[k].open[j].used < MAXOPBLOCKS ==>
        !LogWritePanics(l, states[k].lh, |states[k].open|)
  }

  // A run that fills the log: three operations log the blocks after the log area one by one.

  function Home(l: Layout, i: nat): nat {
    l.start + l.size + i
  }

  function Share(m: nat, o: nat): nat {
    if m <= o * MAXOPBLOCKS then 0
    else if m - o * MAXOPBLOCKS < MAXOPBLOCKS then m - o * MAXOPBLOCKS else MAXOPBLOCKS
  }

  function Updates(l: Layout, base: Disk, m: nat): (us: seq<Update>)
    requires Home(l, m) <= |base|
    ensures |us| == m
  {
    seq(m, i requires 0 <= i < m => Update(i / MAXOPBLOCKS, Home(l, i), base[Home(l, i)]))
  }

  function Began(base: Disk, o: nat): State {
    State(base, base, [], seq(o, i requires 0 <= i => Op(i, 0)), Running, [], [], [], Below(o), {}, 0, 0)
  }

  function Filled(l: Layout, base: Disk, m: nat): State
    requires Home(l, m) <= |base|
  {
    var us := Updates(l, base, m);
    Began(base, 3).(lh := seq(m, i requires 0 <= i => Home(l, i)),
                    open := seq(3, o requires 0 <= o => Op(o, Share(m, o))), pend := us, issued := us)
  }

  function FillState(l: Layout, base: Disk, k: nat): State
    requires k >= 3 ==> Home(l, k - 3) <= |base|
  {
    if k < 3 then Began(base, k) else Filled(l, base, k - 3)
  }

  function FillStep(l: Layout, base: Disk, k: nat): Step
    requires k >= 3 ==> Home(l, k - 3) < |base|
  {
    if k < 3 then BeginOp(k) else LogWrite((k - 3) / MAXOPBLOCKS, Home(l, k - 3), base[Home(l, k - 3)])
  }

  lemma FillNext(l: Layout, base: Disk, m: nat)
    requires m < LOGSIZE && m < l.size - 1 && Home(l, m) < |base|
    ensures Next(l, Filled(l, base, m), FillStep(l, base, m + 3), Filled(l, base, m + 1))
    ensures InBudget(Filled(l, base, m), FillStep(l, base, m + 3))
  {
  }

  lemma BeganNext(l: Layout, base: Disk, o: nat)
    requires o < 3 && Home(l, 0) <= |base|
    ensures Next(l, Began(base, o), BeginOp(o), FillState(l, base, o + 1)) && InBudget(Began(base, o), BeginOp(o))
  {
  }

  lemma BeganInit(l: Layout, base: Disk)
    requires Fits(l, base) && HeaderCount(base[l.start]) == 0
    ensures Init(l, base, Began(base, 0))
  {
  }

  lemma FillRun(l: Layout, base: Disk, m: nat) returns (states: seq<State>, steps: seq<Step>)
    requires Fits(l, base) && HeaderCount(base[l.start]) == 0
    requires m <= LOGSIZE && m <= l.size - 1 && Home(l, m) <= |base|
    ensures IsBudgetRun(l, base, states, steps) && states[|steps|] == Filled(l, base, m)
  {
    hide Next, InBudget, Filled, Began, Init;
    steps := seq(m + 3, k requires 0 <= k < m + 3 => FillStep(l, base, k));
    states := seq(m + 4, k requires 0 <= k < m + 4 => FillState(l, base, k));
    BeganInit(l, base);
    forall k | 0 <= k < |steps|
      ensures Next(l, states[k], steps[k], states[k + 1]) && InBudget(states[k], steps[k])
    {
      if k < 3 {
        BeganNext(l, base, k);
      } else {
        FillNext(l, base, k - 3);
      }
    }
  }

  /** The reservation keeps log_write from panicking exactly when the log area has a block more than LOGSIZE;
      mkfs makes it LOGSIZE blocks, header included. */
  lemma NeverPanicsIff(l: Layout, base: Disk)
    requires Fits(l, base) && HeaderCount(base[l.start]) == 0 && Home(l, LOGSIZE) <= |base|
    ensures NeverPanics(l, base) <==> l.size >= LOGSIZE + 1
  {
    if l.size >= LOGSIZE + 1 {
      forall states: seq<State>, steps: seq<Step>, k: nat, j: nat |
        IsBudgetRun(l, base, states, steps) && k < |states| && j < |states[k].open| &&
        states[k].open[j].used < MAXOPBLOCKS
        ensures !LogWritePanics(l, states[k].lh, |states[k].open|)
      {
        ReservationHolds(l, base, states, steps, k);
        UnusedBounds(states[k].open);
      }
    } else {
      var m := l.size - 1;
      var states, steps := FillRun(l, base, m);
      var s := states[|steps|];
      assert s.open[m / MAXOPBLOCKS].used < MAXOPBLOCKS && LogWritePanics(l, s.lh, |s.open|);
    }
  }

  /** log_write tests for space before it looks for the block, so on a full log it also refuses a block that
      needs none: whatever the size of the log, operations within their budget get there. */
  lemma FullLogRefusesAbsorption(l: Layout, base: Disk) returns (states: seq<State>, steps: seq<Step>)
    requires Fits(l, base) && HeaderCount(base[l.start]) == 0 && Home(l, LOGSIZE) <= |base| && l.size > 1
    ensures IsBudgetRun(l, base, states, steps)
    ensures var s := states[|steps|];
            |s.open| == 3 && s.lh != [] && Absorb(s.lh, s.lh[0]) == s.lh && LogWritePanics(l, s.lh, |s.open|)
  {
    states, steps := FillRun(l, base, if l.size - 1 < LOGSIZE then l.size - 1 else LOGSIZE);
    assert states[|steps|].lh[0] in states[|steps|].lh;
  }
}
