/** Group commit as a state machine: any number of operations interleave begin_op, log_write and end_op,
    commit and recovery write one disk block per step, and the machine may crash between any two steps. */
module LogRuns {
  import opened Basics
  import opened Blocks
  import opened LogDisk

  /** One log_write: operation `op` leaves `d` in block `b`. */
  datatype Update = Update(op: nat, b: nat, d: Block)

  /** An operation between begin_op and end_op; `used` counts the blocks it added to the log header. */
  datatype Op = Op(id: nat, used: nat)

  datatype Phase =
    | Running
    | Committing(k: nat, d0: Disk, c0: Disk) // k writes of the commit that began on disk d0 with cache c0 are done
    | Recovering(k: nat, d0: Disk)           // k writes of the recovery that began on disk d0 are done

  /** `contents` is what bread returns for each block. The other fields are history: the updates of each group
      whose header reached the disk, those of the group being built, all updates ever made, the operations ever
      begun and ended, and how many groups and updates there were at the last crash. */
  datatype State = State(
    disk: Disk, contents: Disk, lh: seq<nat>, open: seq<Op>, phase: Phase,
    groups: seq<seq<Update>>, pend: seq<Update>, issued: seq<Update>, begun: set<nat>, ended: set<nat>,
    groups0: nat, issued0: nat)

  datatype Step =
    | BeginOp(op: nat)
    | LogWrite(j: nat, b: nat, d: Block)
    | EndOp(j: nat)
    | CommitWrite
    | CommitEnd
    | Crash
    | RecoverWrite
    | RecoverEnd

  // ---------------------------------------------------------------- steps

  /** log_write panics with "too big a transaction" or "log_write outside of trans". */
  predicate LogWritePanics(l: Layout, lh: seq<nat>, outstanding: nat) {
    |lh| >= LOGSIZE || |lh| >= l.size - 1 || outstanding < 1
  }

  /** log_write's absorption. */
  function Absorb(lh: seq<nat>, b: nat): seq<nat> {
    if b in lh then lh else lh + [b]
  }

  /** The state after the j-th open operation has given block b the contents d and logged it. */
  function AfterLogWrite(s: State, j: nat, b: nat, d: Block): State
    requires j < |s.open| && b < |s.contents|
  {
    var u := Update(s.open[j].id, b, d);
    s.(contents := s.contents[b := d], lh := Absorb(s.lh, b),
       open := s.open[j := s.open[j].(used := s.open[j].used + if b in s.lh then 0 else 1)],
       pend := s.pend + [u], issued := s.issued + [u])
  }

  ghost predicate Init(l: Layout, base: Disk, s: State) {
    Fits(l, base) && HeaderCount(base[l.start]) == 0 &&
    s == State(base, base, [], [], Running, [], [], [], {}, {}, 0, 0)
  }

  ghost predicate Next(l: Layout, s: State, step: Step, s': State) {
    match step
    case BeginOp(op) =>
      s.phase.Running? && |s.lh| + (|s.open| + 1) * MAXOPBLOCKS <= LOGSIZE && op !in s.begun &&
      s' == s.(open := s.open + [Op(op, 0)], begun := s.begun + {op})
    case LogWrite(j, b, d) =>
      j < |s.open| && b < |s.contents| && !InLog(l, b) && !LogWritePanics(l, s.lh, |s.open|) &&
      s' == AfterLogWrite(s, j, b, d)
    case EndOp(j) =>
      j < |s.open| &&
      s' == s.(open := RemoveAt(s.open, j), ended := s.ended + {s.open[j].id},
               phase := if |s.open| == 1 then Committing(0, s.disk, s.contents) else s.phase)
    case CommitWrite =>
      s.phase.Committing? && Fits(l, s.phase.c0) && GoodList(l, |s.phase.c0|, s.lh) &&
      var ws := CommitWrites(l, s.phase.c0, s.lh);
      s.phase.k < |ws| &&
      var now, commits := [ws[s.phase.k]], s.phase.k == |s.lh|;
      s' == s.(disk := Apply(s.disk, now), contents := Apply(s.contents, now),
               phase := Committing(s.phase.k + 1, s.phase.d0, s.phase.c0),
               groups := if commits then s.groups + [s.pend] else s.groups, pend := if commits then [] else s.pend)
    case CommitEnd =>
      s.phase.Committing? && Fits(l, s.phase.c0) && GoodList(l, |s.phase.c0|, s.lh) &&
      s.phase.k == |CommitWrites(l, s.phase.c0, s.lh)| &&
      s' == s.(lh := [], phase := Running, pend := [])
    case Crash =>
      s' == s.(contents := s.disk, lh := [], open := [], phase := Recovering(0, s.disk), pend := [],
               groups0 := |s.groups|, issued0 := |s.issued|)
    case RecoverWrite =>
      s.phase.Recovering? && Fits(l, s.phase.d0) && GoodHeader(l, s.phase.d0) &&
      var ws := RecoverWrites(l, s.phase.d0);
      s.phase.k < |ws| &&
      var now := [ws[s.phase.k]];
      s' == s.(disk := Apply(s.disk, now), contents := Apply(s.contents, now),
        phase := Recovering(s.phase.k + 1, s.phase.d0))
    case RecoverEnd =>
      s.phase.Recovering? && Fits(l, s.phase.d0) && GoodHeader(l, s.phase.d0) &&
      s.phase.k == |RecoverWrites(l, s.phase.d0)| &&
      s' == s.(phase := Running)
  }

  lemma LogWriteNext(l: Layout, s: State, j: nat, b: nat, d: Block)
    requires j < |s.open| && b < |s.contents| && !InLog(l, b)
    ensures if LogWritePanics(l, s.lh, |s.open|) then forall s' :: !Next(l, s, LogWrite(j, b, d), s')
            else Next(l, s, LogWrite(j, b, d), AfterLogWrite(s, j, b, d))
  {
  }

  // ---------------------------------------------------------------- what the groups mean

  function Replay(d: Disk, us: seq<Update>): (r: Disk)
    ensures |r| == |d|
  {
    if us == [] then d
    else
      var u := us[|us| - 1];
      var before := Replay(d, us[..|us| - 1]);
      if u.b < |d| then before[u.b := u.d] else before
  }

  lemma ReplayAppend(d: Disk, us: seq<Update>, u: Update)
    ensures Replay(d, us + [u]) == if u.b < |d| then Replay(d, us)[u.b := u.d] else Replay(d, us)
  {
    assert (us + [u])[..|us|] == us;
  }

  /** The disk after the groups that committed, one whole group at a time. */
  function ReplayGroups(d: Disk, gs: seq<seq<Update>>): (r: Disk)
    ensures |r| == |d|
  {
    if gs == [] then d else Replay(ReplayGroups(d, gs[..|gs| - 1]), gs[|gs| - 1])
  }

  ghost predicate Logged(us: seq<Update>, lh: seq<nat>) {
    forall i :: 0 <= i < |us| ==> us[i].b in lh
  }

  lemma {:induction false} ReplayOther(d: Disk, us: seq<Update>, lh: seq<nat>, b: nat)
    requires Logged(us, lh) && b < |d| && b !in lh
    ensures Replay(d, us)[b] == d[b]
  {
    if us != [] {
      ReplayOther(d, us[..|us| - 1], lh, b);
      assert us[|us| - 1].b in lh;
    }
  }

  lemma {:induction false} ReplaySameHome(l: Layout, d: Disk, e: Disk, us: seq<Update>)
    requires SameHome(l, d, e)
    ensures SameHome(l, Replay(d, us), Replay(e, us))
  {
    if us != [] {
      ReplaySameHome(l, d, e, us[..|us| - 1]);
    }
  }

  /** The group being built touches only blocks the in-memory header lists. */
  lemma PendingOff(l: Layout, s: State, committed: Disk, b: nat)
    requires SameHome(l, s.contents, Replay(committed, s.pend)) && Logged(s.pend, s.lh)
    requires b < |committed| && !InLog(l, b) && b !in s.lh
    ensures s.contents[b] == committed[b]
  {
    ReplayOther(committed, s.pend, s.lh, b);
  }

  // ---------------------------------------------------------------- the invariant

  ghost predicate Sized(l: Layout, base: Disk, s: State) {
    Fits(l, base) && |s.disk| == |base| && |s.contents| == |base| && GoodList(l, |base|, s.lh)
  }

  /** Between commits the disk holds the committed groups, and the cache the group being built on top. */
  ghost predicate RunningInv(l: Layout, committed: Disk, s: State)
    requires Sized(l, committed, s)
  {
    HeaderCount(s.disk[l.start]) == 0 && SameHome(l, s.disk, committed) &&
    SameHome(l, s.contents, Replay(committed, s.pend)) && Logged(s.pend, s.lh)
  }

  ghost predicate CommittingInv(l: Layout, committed: Disk, s: State)
    requires Sized(l, committed, s) && s.phase.Committing?
  {
    var k, d0, c0 := s.phase.k, s.phase.d0, s.phase.c0;
    |d0| == |s.disk| && |c0| == |s.disk| && HeaderCount(d0[l.start]) == 0 && s.open == [] && Logged(s.pend, s.lh) &&
    k <= |CommitWrites(l, c0, s.lh)| && s.disk == Apply(d0, CommitWrites(l, c0, s.lh)[..k]) &&
    (forall b :: 0 <= b < |c0| && !InLog(l, b) && b !in s.lh ==> c0[b] == d0[b]) &&
    SameHome(l, s.contents, c0) && SameHome(l, s.contents, Replay(committed, s.pend)) &&
    (if k <= |s.lh| then SameHome(l, d0, committed) else s.pend == [])
  }

  ghost predicate RecoveringInv(l: Layout, committed: Disk, s: State)
    requires Sized(l, committed, s) && s.phase.Recovering?
  {
    var k, d0 := s.phase.k, s.phase.d0;
    |d0| == |s.disk| && GoodHeader(l, d0) && SameHome(l, Recover(l, d0), committed) &&
    k <= |RecoverWrites(l, d0)| && s.disk == Apply(d0, RecoverWrites(l, d0)[..k]) && s.contents == s.disk &&
    s.lh == [] && s.open == [] && s.pend == []
  }

  ghost predicate Inv(l: Layout, base: Disk, s: State) {
    Sized(l, base, s) &&
    var committed := ReplayGroups(base, s.groups);
    match s.phase
    case Running => RunningInv(l, committed, s)
    case Committing(_, _, _) => CommittingInv(l, committed, s)
    case Recovering(_, _) => RecoveringInv(l, committed, s)
  }

  /** Recovery of the disk of any such state gives the committed groups, whole and in order. */
  lemma InvRecovers(l: Layout, base: Disk, s: State)
    requires Inv(l, base, s)
    ensures GoodHeader(l, s.disk) && SameHome(l, Recover(l, s.disk), ReplayGroups(base, s.groups))
  {
    match s.phase
    case Running =>
      ClearRecovers(l, s.disk);
    case Committing(k, d0, c0) =>
      CrashDuringCommit(l, d0, c0, s.lh, k);
    case Recovering(k, d0) =>
      CrashDuringRecovery(l, d0, k);
  }

  lemma InvInit(l: Layout, base: Disk, s: State)
    requires Init(l, base, s)
    ensures Inv(l, base, s) && Ops(s) && Accounted(s)
  {
  }

  lemma LogWriteKeeps(l: Layout, base: Disk, s: State, j: nat, b: nat, d: Block, s': State)
    requires Inv(l, base, s) && Next(l, s, LogWrite(j, b, d), s')
    ensures Inv(l, base, s')
  {
    hide Replay, ReplayGroups, HeaderCount;
    ReplayAppend(ReplayGroups(base, s.groups), s.pend, Update(s.open[j].id, b, d));
  }

  lemma EndOpKeeps(l: Layout, base: Disk, s: State, j: nat, s': State)
    requires Inv(l, base, s) && Next(l, s, EndOp(j), s')
    ensures Inv(l, base, s')
  {
    if |s.open| == 1 {
      var ws := CommitWrites(l, s.contents, s.lh);
      assert ws[..0] == [];
      forall b: nat | b < |base| && !InLog(l, b) && b !in s.lh
        ensures s.contents[b] == s.disk[b]
      {
        PendingOff(l, s, ReplayGroups(base, s.groups), b);
      }
    }
  }

  lemma CommitWriteApplied(l: Layout, base: Disk, s: State, s': State)
    requires Inv(l, base, s) && Next(l, s, CommitWrite, s')
    ensures s'.disk == Apply(s.phase.d0, CommitWrites(l, s.phase.c0, s.lh)[..s.phase.k + 1])
    ensures |s'.contents| == |s.contents| && SameHome(l, s'.contents, s.contents)
  {
    hide Apply, CommitWrites, ReplayGroups, Replay, GoodList, HeaderCount;
    var k, d0, c0 := s.phase.k, s.phase.d0, s.phase.c0;
    var ws := CommitWrites(l, c0, s.lh);
    assert ws[..k + 1] == ws[..k] + [ws[k]];
    ApplyAppend(d0, ws[..k], [ws[k]]);
    CommitWriteTarget(l, c0, s.lh, k);
    ApplyOne(s.contents, ws[k]);
  }

  lemma CommitWriteKeeps(l: Layout, base: Disk, s: State, s': State)
    requires Inv(l, base, s) && Next(l, s, CommitWrite, s')
    ensures Inv(l, base, s')
  {
    hide Apply, CommitWrites, HeaderCount;
    CommitWriteApplied(l, base, s, s');
    if s.phase.k == |s.lh| {
      assert s'.groups[..|s'.groups| - 1] == s.groups;
    }
  }

  lemma RecoverWriteKeeps(l: Layout, base: Disk, s: State, s': State)
    requires Inv(l, base, s) && Next(l, s, RecoverWrite, s')
    ensures Inv(l, base, s')
  {
    hide Apply, RecoverWrites, ReplayGroups;
    var k, d0 := s.phase.k, s.phase.d0;
    var ws := RecoverWrites(l, d0);
    assert ws[..k + 1] == ws[..k] + [ws[k]];
    ApplyAppend(d0, ws[..k], [ws[k]]);
  }

  lemma RecoverEndKeeps(l: Layout, base: Disk, s: State, s': State)
    requires Inv(l, base, s) && Next(l, s, RecoverEnd, s')
    ensures Inv(l, base, s')
  {
    hide Apply, RecoverWrites, ReplayGroups;
    var ws := RecoverWrites(l, s.phase.d0);
    assert ws[..|ws|] == ws;
    RecoveredIsClear(l, s.phase.d0);
  }

  lemma CommitEndKeeps(l: Layout, base: Disk, s: State, s': State)
    requires Inv(l, base, s) && Next(l, s, CommitEnd, s')
    ensures Inv(l, base, s')
  {
    var ws := CommitWrites(l, s.phase.c0, s.lh);
    assert ws[..|ws|] == ws;
    CommitDone(l, s.phase.d0, s.phase.c0, s.lh);
    if s.lh == [] {
      forall b: nat | b < |base| && !InLog(l, b)
        ensures s.contents[b] == ReplayGroups(base, s.groups)[b]
      {
        PendingOff(l, s, ReplayGroups(base, s.groups), b);
      }
    }
  }

  lemma CrashKeeps(l: Layout, base: Disk, s: State, s': State)
    requires Inv(l, base, s) && Next(l, s, Crash, s')
    ensures Inv(l, base, s')
  {
    InvRecovers(l, base, s);
    assert RecoverWrites(l, s.disk)[..0] == [];
  }

  lemma BeginOpKeeps(l: Layout, base: Disk, s: State, op: nat, s': State)
    requires Inv(l, base, s) && Next(l, s, BeginOp(op), s')
    ensures Inv(l, base, s')
  {
  }

  lemma InvNext(l: Layout, base: Disk, s: State, step: Step, s': State)
    requires Inv(l, base, s) && Next(l, s, step, s')
    ensures Inv(l, base, s')
  {
    match step
    case BeginOp(op) => BeginOpKeeps(l, base, s, op, s');
    case LogWrite(j, b, d) => LogWriteKeeps(l, base, s, j, b, d, s');
    case EndOp(j) => EndOpKeeps(l, base, s, j, s');
    case CommitWrite => CommitWriteKeeps(l, base, s, s');
    case CommitEnd => CommitEndKeeps(l, base, s, s');
    case Crash => CrashKeeps(l, base, s, s');
    case RecoverWrite => RecoverWriteKeeps(l, base, s, s');
    case RecoverEnd => RecoverEndKeeps(l, base, s, s');
  }

  // ---------------------------------------------------------------- no update goes missing

  function Flat(gs: seq<seq<Update>>): seq<Update> {
    if gs == [] then [] else Flat(gs[..|gs| - 1]) + gs[|gs| - 1]
  }

  /** The updates since the last crash are those of the groups since then and of the group being built. */
  ghost predicate Accounted(s: State) {
    s.groups0 <= |s.groups| && s.issued0 <= |s.issued| &&
    s.issued[s.issued0..] == Flat(s.groups[s.groups0..]) + s.pend
  }

  lemma FlatAppend(gs: seq<seq<Update>>, g0: nat, g: seq<Update>)
    requires g0 <= |gs|
    ensures Flat((gs + [g])[g0..]) == Flat(gs[g0..]) + g
  {
    assert (gs + [g])[g0..] == gs[g0..] + [g];
    assert (gs[g0..] + [g])[..|gs| - g0] == gs[g0..];
  }

  /** A commit that has made all its writes has nothing left pending. */
  lemma NothingPending(l: Layout, base: Disk, s: State, s': State)
    requires Inv(l, base, s) && Next(l, s, CommitEnd, s')
    ensures s.pend == []
  {
    hide CommitWrites, Apply, Replay, ReplayGroups;
    CommitSize(l, s.phase.c0, s.lh);
    LoggedSome(s.pend, s.lh);
  }

  lemma LoggedSome(us: seq<Update>, lh: seq<nat>)
    requires Logged(us, lh)
    ensures us != [] ==> lh != []
  {
    if us != [] {
      assert us[0].b in lh;
    }
  }

  lemma CommitSize(l: Layout, c: Disk, lh: seq<nat>)
    requires Fits(l, c) && GoodList(l, |c|, lh)
    ensures |CommitWrites(l, c, lh)| == if lh == [] then 0 else 2 * |lh| + 2
  {
  }

  lemma AccountedNext(l: Layout, base: Disk, s: State, step: Step, s': State)
    requires Inv(l, base, s) && Accounted(s) && Next(l, s, step, s')
    ensures Accounted(s')
  {
    hide Inv, CommitWrites, RecoverWrites, Apply, Flat;
    match step
    case LogWrite(j, b, d) =>
      var u := Update(s.open[j].id, b, d);
      assert s'.issued[s.issued0..] == s.issued[s.issued0..] + [u];
    case CommitWrite =>
      FlatAppend(s.groups, s.groups0, s.pend);
    case CommitEnd =>
      NothingPending(l, base, s, s');
    case Crash =>
      FlatNone(s.groups);
    case _ =>
  }

  lemma FlatNone(gs: seq<seq<Update>>)
    ensures Flat(gs[|gs|..]) == []
  {
  }

  // ---------------------------------------------------------------- runs

  /** Each state follows from the one before it by the step between them. */
  ghost predicate Follows(l: Layout, states: seq<State>, steps: seq<Step>) {
    |states| == |steps| + 1 && forall k :: 0 <= k < |steps| ==> Next(l, states[k], steps[k], states[k + 1])
  }

  ghost predicate IsRun(l: Layout, base: Disk, states: seq<State>, steps: seq<Step>) {
    Follows(l, states, steps) && Init(l, base, states[0])
  }

  lemma {:induction false} RunInv(l: Layout, base: Disk, states: seq<State>, steps: seq<Step>, k: nat)
    requires IsRun(l, base, states, steps) && k < |states|
    ensures Inv(l, base, states[k]) && Ops(states[k]) && Accounted(states[k])
  {
    hide Inv, Ops, Accounted, Init, Next;
    if k == 0 {
      InvInit(l, base, states[0]);
    } else {
      RunInv(l, base, states, steps, k - 1);
      InvNext(l, base, states[k - 1], steps[k - 1], states[k]);
      OpsNext(l, base, states[k - 1], steps[k - 1], states[k]);
      AccountedNext(l, base, states[k - 1], steps[k - 1], states[k]);
    }
  }

  /** Whatever has run, and wherever it stops, recovery leaves exactly the committed groups on the home
      blocks: each group whole, in commit order, and nothing else. */
  lemma GroupAtomicity(l: Layout, base: Disk, states: seq<State>, steps: seq<Step>, k: nat)
    requires IsRun(l, base, states, steps) && k < |states|
    ensures Fits(l, states[k].disk) && GoodHeader(l, states[k].disk)
    ensures SameHome(l, Recover(l, states[k].disk), ReplayGroups(base, states[k].groups))
    ensures Atomic(states[k])
  {
    RunInv(l, base, states, steps, k);
    InvRecovers(l, base, states[k]);
  }

  /** A committed group is never lost again, crashes included. */
  lemma {:induction false} GroupsOnlyGrow(l: Layout, base: Disk, states: seq<State>, steps: seq<Step>, j: nat, k: nat)
    requires IsRun(l, base, states, steps) && j <= k < |states|
    ensures states[j].groups <= states[k].groups
  {
    hide CommitWrites, RecoverWrites, Apply, Init, GoodList;
    if j < k {
      GroupsOnlyGrow(l, base, states, steps, j, k - 1);
      assert Next(l, states[k - 1], steps[k - 1], states[k]);
    }
  }

  /** When a commit has ended, every update made since the last crash is in a committed group, each once and in
      the order they were made. */
  lemma CommitIsDurable(l: Layout, base: Disk, states: seq<State>, steps: seq<Step>, k: nat)
    requires IsRun(l, base, states, steps) && k < |steps| && steps[k].CommitEnd?
    ensures var s := states[k + 1];
            s.groups0 <= |s.groups| && s.issued0 <= |s.issued| && Flat(s.groups[s.groups0..]) == s.issued[s.issued0..]
  {
    RunInv(l, base, states, steps, k + 1);
    assert Next(l, states[k], steps[k], states[k + 1]);
  }

  /** While a commit or a recovery is writing, no operation is open: log_write would panic and begin_op waits,
      and end_op never finds `committing` set. */
  lemma QuietWhileWriting(l: Layout, base: Disk, states: seq<State>, steps: seq<Step>, k: nat)
    requires IsRun(l, base, states, steps) && k < |steps| && !states[k].phase.Running?
    ensures states[k].open == [] && LogWritePanics(l, states[k].lh, |states[k].open|)
    ensures steps[k].CommitWrite? || steps[k].CommitEnd? || steps[k].RecoverWrite? || steps[k].RecoverEnd? ||
            steps[k].Crash?
  {
    RunInv(l, base, states, steps, k);
    assert Next(l, states[k], steps[k], states[k + 1]);
  }

  /** No home block is written by a commit before its header: when the next write of a commit goes to a home
      block, the disk already holds that write in the log, listed by the header. */
  lemma HeaderBeforeHome(l: Layout, base: Disk, states: seq<State>, steps: seq<Step>, k: nat)
    requires IsRun(l, base, states, steps) && k < |steps| && steps[k].CommitWrite?
    ensures var s, p := states[k], states[k].phase;
            p.Committing? && Fits(l, p.c0) && GoodList(l, |p.c0|, s.lh) && p.k < |CommitWrites(l, p.c0, s.lh)| &&
            var w := CommitWrites(l, p.c0, s.lh)[p.k];
            InLog(l, w.0) || Durable(l, s.disk, w)
  {
    hide CommitWrites, Apply, Durable;
    RunInv(l, base, states, steps, k);
    var s, p := states[k], states[k].phase;
    assert Next(l, s, steps[k], states[k + 1]);
    if !InLog(l, CommitWrites(l, p.c0, s.lh)[p.k].0) {
      CommitHeaderFirst(l, p.d0, p.c0, s.lh, p.k);
    }
  }

  // ---------------------------------------------------------------- one commit, one recovery

  ghost predicate StartsCommit(l: Layout, s: State) {
    s.phase == Committing(0, s.disk, s.contents) && Fits(l, s.contents) && GoodList(l, |s.contents|, s.lh)
  }

  /** The state k writes into the commit that starts at s. */
  ghost function CommitState(l: Layout, s: State, k: nat): State
    requires StartsCommit(l, s) && k <= |CommitWrites(l, s.contents, s.lh)|
  {
    var done := CommitWrites(l, s.contents, s.lh)[..k];
    s.(disk := Apply(s.disk, done), contents := Apply(s.contents, done), phase := Committing(k, s.disk, s.contents),
       groups := if k > |s.lh| then s.groups + [s.pend] else s.groups, pend := if k > |s.lh| then [] else s.pend)
  }

  /** The state a commit that starts at s ends in. */
  ghost function Committed(l: Layout, s: State): State
    requires StartsCommit(l, s)
  {
    CommitState(l, s, |CommitWrites(l, s.contents, s.lh)|).(lh := [], phase := Running, pend := [])
  }

  lemma CommitStateNext(l: Layout, s: State, k: nat)
    requires StartsCommit(l, s) && k < |CommitWrites(l, s.contents, s.lh)|
    ensures Next(l, CommitState(l, s, k), CommitWrite, CommitState(l, s, k + 1))
  {
    hide CommitWrites, Apply, GoodList;
    var ws := CommitWrites(l, s.contents, s.lh);
    assert ws[..k + 1] == ws[..k] + [ws[k]];
    ApplyAppend(s.disk, ws[..k], [ws[k]]);
    ApplyAppend(s.contents, ws[..k], [ws[k]]);
  }

  /** A commit is a chain of CommitWrite steps, one for each of its disk writes, and a CommitEnd. */
  lemma CommitRun(l: Layout, s: State) returns (states: seq<State>, steps: seq<Step>)
    requires StartsCommit(l, s)
    ensures Follows(l, states, steps) && states[0] == s && states[|steps|] == Committed(l, s)
    ensures var n := |CommitWrites(l, s.contents, s.lh)|; steps == seq(n, k => CommitWrite) + [CommitEnd]
  {
    hide CommitWrites, Apply, GoodList;
    var ws := CommitWrites(l, s.contents, s.lh);
    ApplyNone(s.disk, ws);
    ApplyNone(s.contents, ws);
    states := seq(|ws| + 1, k requires 0 <= k <= |ws| => CommitState(l, s, k)) + [Committed(l, s)];
    steps := seq(|ws|, k => CommitWrite) + [CommitEnd];
    forall k | 0 <= k < |ws|
      ensures Next(l, states[k], steps[k], states[k + 1])
    {
      CommitStateNext(l, s, k);
    }
  }

  ghost predicate StartsRecovery(l: Layout, s: State) {
    s.phase == Recovering(0, s.disk) && s.contents == s.disk && Fits(l, s.disk) && GoodHeader(l, s.disk)
  }

  ghost function RecoverState(l: Layout, s: State, k: nat): State
    requires StartsRecovery(l, s) && k <= |RecoverWrites(l, s.disk)|
  {
    var d := Apply(s.disk, RecoverWrites(l, s.disk)[..k]);
    s.(disk := d, contents := d, phase := Recovering(k, s.disk))
  }

  ghost function Recovered(l: Layout, s: State): State
    requires StartsRecovery(l, s)
  {
    s.(disk := Recover(l, s.disk), contents := Recover(l, s.disk), phase := Running)
  }

  lemma RecoverStateNext(l: Layout, s: State, k: nat)
    requires StartsRecovery(l, s) && k < |RecoverWrites(l, s.disk)|
    ensures Next(l, RecoverState(l, s, k), RecoverWrite, RecoverState(l, s, k + 1))
  {
    hide RecoverWrites, Apply, GoodList;
    var ws := RecoverWrites(l, s.disk);
    assert ws[..k + 1] == ws[..k] + [ws[k]];
    ApplyAppend(s.disk, ws[..k], [ws[k]]);
  }

  /** A recovery is a chain of RecoverWrite steps, one for each of its disk writes, and a RecoverEnd. */
  lemma RecoverRun(l: Layout, s: State) returns (states: seq<State>, steps: seq<Step>)
    requires StartsRecovery(l, s)
    ensures Follows(l, states, steps) && states[0] == s && states[|steps|] == Recovered(l, s)
    ensures var n := |RecoverWrites(l, s.disk)|; steps == seq(n, k => RecoverWrite) + [RecoverEnd]
  {
    hide RecoverWrites, Apply, GoodList;
    var ws := RecoverWrites(l, s.disk);
    ApplyNone(s.disk, ws);
    assert ws[..|ws|] == ws;
    states := seq(|ws| + 1, k requires 0 <= k <= |ws| => RecoverState(l, s, k)) + [Recovered(l, s)];
    steps := seq(|ws|, k => RecoverWrite) + [RecoverEnd];
    forall k | 0 <= k < |ws|
      ensures Next(l, states[k], steps[k], states[k + 1])
    {
      RecoverStateNext(l, s, k);
    }
  }

  // ---------------------------------------------------------------- whole operations

  /** The updates of one operation, in order. */
  function By(us: seq<Update>, op: nat): seq<Update> {
    if us == [] then []
    else By(us[..|us| - 1], op) + if us[|us| - 1].op == op then [us[|us| - 1]] else []
  }

  ghost predicate Mentions(us: seq<Update>, op: nat) {
    exists i :: 0 <= i < |us| && us[i].op == op
  }

  /** Every committed group is made of ended operations, and has every update each of them ever made; no
      operation is split between groups. */
  ghost predicate Atomic(s: State) {
    (forall g, op :: 0 <= g < |s.groups| && Mentions(s.groups[g], op) ==>
      op in s.ended && By(s.groups[g], op) == By(s.issued, op)) &&
    forall g, h, op :: 0 <= g < h < |s.groups| && Mentions(s.groups[g], op) ==> !Mentions(s.groups[h], op)
  }

  ghost predicate IsOpen(s: State, op: nat) {
    exists j :: 0 <= j < |s.open| && s.open[j].id == op
  }

  ghost predicate Ops(s: State) {
    Atomic(s) && s.ended <= s.begun &&
    (forall i, j :: 0 <= i < j < |s.open| ==> s.open[i].id != s.open[j].id) &&
    (forall op :: IsOpen(s, op) ==> op in s.begun && op !in s.ended && By(s.pend, op) == By(s.issued, op)) &&
    (forall op :: Mentions(s.issued, op) ==> op in s.begun) &&
    (forall op :: Mentions(s.pend, op) ==> (IsOpen(s, op) || op in s.ended) && By(s.pend, op) == By(s.issued, op)) &&
    forall g, op :: 0 <= g < |s.groups| && Mentions(s.groups[g], op) ==> !Mentions(s.pend, op)
  }

  lemma ByAppend(us: seq<Update>, u: Update, op: nat)
    ensures By(us + [u], op) == By(us, op) + if u.op == op then [u] else []
    ensures Mentions(us + [u], op) <==> Mentions(us, op) || u.op == op
  {
  }

  lemma {:induction false} ByNone(us: seq<Update>, op: nat)
    requires !Mentions(us, op)
    ensures By(us, op) == []
  {
    if us != [] {
      ByNone(us[..|us| - 1], op);
    }
  }

  lemma BeginOps(l: Layout, s: State, op: nat, s': State)
    requires Ops(s) && Next(l, s, BeginOp(op), s')
    ensures Ops(s')
  {
    assert !Mentions(s.pend, op);
    ByNone(s.pend, op);
    ByNone(s.issued, op);
    forall o | IsOpen(s', o)
      ensures o == op || IsOpen(s, o)
    {
    }
    forall o | IsOpen(s, o)
      ensures IsOpen(s', o)
    {
      var j :| 0 <= j < |s.open| && s.open[j].id == o;
      assert s'.open[j].id == o;
    }
  }

  lemma LogWriteOps(l: Layout, s: State, j: nat, b: nat, d: Block, s': State)
    requires Ops(s) && Next(l, s, LogWrite(j, b, d), s')
    ensures Ops(s')
  {
    var u := Update(s.open[j].id, b, d);
    assert IsOpen(s, u.op);
    forall o
      ensures By(s'.pend, o) == By(s.pend, o) + if u.op == o then [u] else []
      ensures By(s'.issued, o) == By(s.issued, o) + if u.op == o then [u] else []
      ensures Mentions(s'.pend, o) <==> Mentions(s.pend, o) || u.op == o
      ensures Mentions(s'.issued, o) <==> Mentions(s.issued, o) || u.op == o
    {
      ByAppend(s.pend, u, o);
      ByAppend(s.issued, u, o);
    }
    forall o
      ensures IsOpen(s', o) <==> IsOpen(s, o)
    {
      if IsOpen(s, o) {
        var i :| 0 <= i < |s.open| && s.open[i].id == o;
        assert s'.open[i].id == o;
      }
    }
  }

  lemma EndOps(l: Layout, s: State, j: nat, s': State)
    requires Ops(s) && Next(l, s, EndOp(j), s')
    ensures Ops(s')
  {
    forall o
      ensures IsOpen(s', o) <==> IsOpen(s, o) && o != s.open[j].id
    {
      if IsOpen(s, o) && o != s.open[j].id {
        var i :| 0 <= i < |s.open| && s.open[i].id == o;
        assert s'.open[if i < j then i else i - 1].id == o;
      }
    }
  }

  lemma CommitOps(l: Layout, base: Disk, s: State, s': State)
    requires Inv(l, base, s) && Ops(s) && Next(l, s, CommitWrite, s')
    ensures Ops(s')
  {
    hide CommitWrites, Apply, Inv, By;
    assert s.open == [] by {
      InvWriting(l, base, s);
    }
  }

  lemma InvWriting(l: Layout, base: Disk, s: State)
    requires Inv(l, base, s) && !s.phase.Running?
    ensures s.open == []
  {
  }

  lemma QuietOps(l: Layout, s: State, step: Step, s': State)
    requires Ops(s) && Next(l, s, step, s') && (step.Crash? || s.open == [])
    requires step.CommitEnd? || step.Crash? || step.RecoverWrite? || step.RecoverEnd?
    ensures Ops(s')
  {
    hide CommitWrites, RecoverWrites, Apply, By;
    assert s'.pend == s.pend || s'.pend == [];
  }

  lemma OpsNext(l: Layout, base: Disk, s: State, step: Step, s': State)
    requires Inv(l, base, s) && Ops(s) && Next(l, s, step, s')
    ensures Ops(s')
  {
    hide Inv;
    match step
    case BeginOp(op) => BeginOps(l, s, op, s');
    case LogWrite(j, b, d) => LogWriteOps(l, s, j, b, d, s');
    case EndOp(j) => EndOps(l, s, j, s');
    case CommitWrite => CommitOps(l, base, s, s');
    case Crash => QuietOps(l, s, step, s');
    case _ => InvWriting(l, base, s); QuietOps(l, s, step, s');
  }
}
