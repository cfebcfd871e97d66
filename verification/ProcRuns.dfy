/** Processes over whole runs: fork, exit, wait, sleep, wakeup, kill, yield and the schedulers of any number of CPUs,
    each step being what happens between taking ptable.lock and letting it go. */
module ProcRuns {
  import opened ProcTable

  /** The table, each CPU's process or -1, the child each process is forking or -1, and for the record the pids of the
      processes that have exited and, in order, of those that wait has collected. */
  datatype Sys = Sys(t: Table, cpu: seq<int>, nextpid: nat, init: nat, forking: seq<int>, exited: set<nat>,
      reaped: seq<nat>)

  datatype Action =
    | ForkAlloc(p: nat, np: nat)
    | ForkFail(p: nat)
    | ForkParent(p: nat)
    | ForkDone(p: nat)
    | Exit(p: nat, c: nat)
    | Reap(p: nat, q: nat)
    | WaitSleep(p: nat, c: nat)
    | Sleep(p: nat, c: nat, a: nat)
    | Wakeup(a: nat)
    | Kill(q: nat)
    | Yield(p: nat, c: nat)
    | Sched(p: nat, c: nat)

  predicate Runs(s: Sys, p: nat, c: nat) {
    p < NPROC && c < |s.cpu| && s.cpu[c] == p && s.t[p].state == RUNNING
  }

  predicate Forking(s: Sys, p: nat) {
    p < NPROC && |s.forking| == NPROC && 0 <= s.forking[p] < NPROC && s.t[p].state == RUNNING
  }

  predicate Ready(s: Sys, p: nat) {
    p < NPROC && |s.forking| == NPROC && s.forking[p] < 0 && s.t[p].state == RUNNING
  }

  predicate Enabled(s: Sys, a: Action) {
    match a
    case ForkAlloc(p, np) => Ready(s, p) && np < NPROC && s.t[np].state == UNUSED
    case ForkFail(p) => Forking(s, p) && s.t[s.forking[p]].parent != p
    case ForkParent(p) => Forking(s, p)
    case ForkDone(p) => Forking(s, p) && s.t[s.forking[p]].parent == p
    case Exit(p, c) => Ready(s, p) && Runs(s, p, c) && p != s.init
    case Reap(p, q) => Ready(s, p) && q < NPROC && ZombieChild(s.t[q], p)
    case WaitSleep(p, c) =>
      Ready(s, p) && Runs(s, p, c) && !HasZombie(s.t, p) && HasChild(s.t, p) && !s.t[p].killed
    case Sleep(p, c, a) => Ready(s, p) && Runs(s, p, c)
    case Wakeup(a) => true
    case Kill(q) => q < NPROC
    case Yield(p, c) => Runs(s, p, c)
    case Sched(p, c) => p < NPROC && c < |s.cpu| && s.cpu[c] < 0 && s.t[p].state == RUNNABLE
  }

  function Slot(s: Sys, p: nat, e: Proc): Sys
    requires p < NPROC
  {
    s.(t := s.t[p := e])
  }

  function Apply(s: Sys, a: Action): Sys
    requires Enabled(s, a)
  {
    match a
    case ForkAlloc(p, np) =>
      Slot(s, np, s.t[np].(state := EMBRYO, pid := s.nextpid)).(nextpid := s.nextpid + 1, forking := s.forking[p := np])
    case ForkFail(p) => Slot(s, s.forking[p], s.t[s.forking[p]].(state := UNUSED)).(forking := s.forking[p := -1])
    case ForkParent(p) => Slot(s, s.forking[p], s.t[s.forking[p]].(parent := p))
    case ForkDone(p) => Slot(s, s.forking[p], s.t[s.forking[p]].(state := RUNNABLE)).(forking := s.forking[p := -1])
    case Exit(p, c) => s.(t := Exited(s.t, p, s.init), cpu := s.cpu[c := -1], exited := s.exited + {s.t[p].pid})
    case Reap(p, q) => Slot(s, q, Reaped(s.t[q])).(reaped := s.reaped + [s.t[q].pid])
    case WaitSleep(p, c) => Slot(s, p, s.t[p].(state := SLEEPING, chan := OfProc(p))).(cpu := s.cpu[c := -1])
    case Sleep(p, c, a) => Slot(s, p, s.t[p].(state := SLEEPING, chan := Other(a))).(cpu := s.cpu[c := -1])
    case Wakeup(a) => s.(t := Woken(s.t, Other(a)))
    case Kill(q) => Slot(s, q, Killed(s.t[q]))
    case Yield(p, c) => Slot(s, p, s.t[p].(state := RUNNABLE)).(cpu := s.cpu[c := -1])
    case Sched(p, c) => Slot(s, p, s.t[p].(state := RUNNING, chan := Nothing)).(cpu := s.cpu[c := p])
  }

  ghost predicate Init(s: Sys) {
    s.init < NPROC && |s.forking| == NPROC && (forall p :: 0 <= p < NPROC ==> s.forking[p] == -1) &&
    (forall c :: 0 <= c < |s.cpu| ==> s.cpu[c] == -1) &&
    (forall p :: 0 <= p < NPROC ==> s.t[p] == if p == s.init then Proc(RUNNABLE, 1, -1, Nothing, false)
        else Proc(UNUSED, 0, -1, Nothing, false)) &&
    s.nextpid == 2 && s.exited == {} && s.reaped == []
  }

  ghost predicate Next(s: Sys, s': Sys) {
    exists a :: Enabled(s, a) && s' == Apply(s, a)
  }

  ghost predicate IsRun(run: seq<Sys>) {
    |run| > 0 && Init(run[0]) && forall i :: 0 <= i < |run| - 1 ==> Next(run[i], run[i + 1])
  }

  // ---------------------------------------------------------------- the invariant

  predicate Alive(e: Proc) {
    e.state == SLEEPING || e.state == RUNNABLE || e.state == RUNNING
  }

  /** A process on a CPU is running, and a running one is on a CPU. */
  ghost predicate CpuOk(s: Sys, p: nat)
    requires p < NPROC
  {
    s.t[p].state == RUNNING <==> OnCpu(s.cpu, p)
  }

  ghost predicate OnCpu(cpu: seq<int>, p: nat) {
    exists c: nat :: c < |cpu| && cpu[c] == p
  }

  ghost predicate CpusApart(s: Sys) {
    forall c: nat, d: nat :: c < d < |s.cpu| && s.cpu[c] == s.cpu[d] ==> s.cpu[c] < 0
  }

  ghost predicate CpusInRange(s: Sys) {
    forall c: nat :: c < |s.cpu| ==> s.cpu[c] < NPROC
  }

  /** A process, dead or alive, has a parent that is alive; a child being forked has none or the one that forks it. */
  ghost predicate ParentOk(s: Sys, q: nat)
    requires q < NPROC
  {
    var e := s.t[q];
    (e.state == UNUSED ==> e.parent == -1) &&
    (e.state == EMBRYO ==> exists p: nat :: ForkedBy(s, q, p) && (e.parent == -1 || e.parent == p)) &&
    (q == s.init ==> Alive(e) && e.parent == -1) &&
    (q != s.init && (Alive(e) || e.state == ZOMBIE) ==> 0 <= e.parent < NPROC && e.parent != q && Alive(s.t[e.parent]))
  }

  ghost predicate ForkedBy(s: Sys, q: nat, p: nat) {
    p < NPROC && |s.forking| == NPROC && s.forking[p] == q
  }

  ghost predicate ForkOk(s: Sys, p: nat)
    requires p < NPROC && |s.forking| == NPROC
  {
    -1 <= s.forking[p] < NPROC &&
    (s.forking[p] >= 0 ==> s.t[s.forking[p]].state == EMBRYO && (s.t[p].state == RUNNING || s.t[p].state == RUNNABLE))
  }

  /** A process asleep on itself has no zombie child, and nobody sleeps on another process. */
  ghost predicate WaitOk(s: Sys, p: nat, q: nat)
    requires p < NPROC && q < NPROC
  {
    s.t[p].state == SLEEPING && s.t[p].chan.OfProc? ==> s.t[p].chan.p == p && !ZombieChild(s.t[q], p)
  }

  /** A process asleep on itself has a child to wait for and has not been killed. */
  ghost predicate WaiterOk(s: Sys, p: nat)
    requires p < NPROC
  {
    s.t[p].state == SLEEPING && s.t[p].chan.OfProc? ==> HasChild(s.t, p) && !s.t[p].killed
  }

  /** Exit records: the pids of zombies are exited, those of other processes are not, and no slot, not even an unused
      one, has a pid that has been reaped. */
  ghost predicate PidOk(s: Sys, q: nat)
    requires q < NPROC
  {
    var e := s.t[q];
    e.pid < s.nextpid && e.pid !in s.reaped && (e.state != UNUSED ==> 0 < e.pid) &&
    (e.state == ZOMBIE ==> e.pid in s.exited) && (Alive(e) || e.state == EMBRYO ==> e.pid !in s.exited)
  }

  ghost predicate PidsApart(s: Sys, p: nat, q: nat)
    requires p < NPROC && q < NPROC
  {
    p != q && s.t[p].pid == s.t[q].pid ==> s.t[p].pid == 0
  }

  /** An exited pid is that of a zombie or has been reaped. */
  ghost predicate ExitOk(s: Sys, pid: nat) {
    pid in s.exited ==>
      0 < pid < s.nextpid &&
      (pid in s.reaped || exists q: nat :: q < NPROC && s.t[q].state == ZOMBIE && s.t[q].pid == pid)
  }

  ghost predicate ReapOk(s: Sys) {
    (forall i :: 0 <= i < |s.reaped| ==> s.reaped[i] in s.exited) && forall i, j :: 0 <= i < j < |s.reaped| ==>
      s.reaped[i] != s.reaped[j]
  }

  ghost predicate Inv(s: Sys) {
    s.init < NPROC && |s.forking| == NPROC && 0 < s.nextpid && CpusApart(s) && CpusInRange(s) && ReapOk(s) &&
    (forall p: nat :: p < NPROC ==> CpuOk(s, p) && ParentOk(s, p) && ForkOk(s, p) && PidOk(s, p) && WaiterOk(s, p)) &&
    (forall p: nat, q: nat :: p < NPROC && q < NPROC ==> WaitOk(s, p, q) && PidsApart(s, p, q)) && ForksApart(s) &&
      forall pid: nat :: ExitOk(s, pid)
  }

  ghost predicate ForksApart(s: Sys) {
    |s.forking| == NPROC && forall p: nat, q: nat :: p < q < NPROC && s.forking[p] == s.forking[q] ==> s.forking[p] < 0
  }

  lemma InitInv(s: Sys)
    requires Init(s)
    ensures Inv(s)
  {
  }

  /** What an exit of p does to a slot. */
  predicate ExitSlot(s: Sys, p: nat, q: nat, e: Proc)
    requires p < NPROC && q < NPROC
  {
    e.pid == s.t[q].pid && e.chan == s.t[q].chan &&
    e.parent == (if s.t[q].parent == p then s.init else s.t[q].parent) &&
    e.state == (if q == p then ZOMBIE
                else if s.t[q].state == SLEEPING &&
                  (s.t[q].chan == ChanOf(s.t[p].parent) || (s.t[q].chan == OfProc(s.init) && HasZombie(s.t, p)))
                then RUNNABLE else s.t[q].state)
  }

  lemma ExitSlots(s: Sys, p: nat, c: nat)
    requires Enabled(s, Exit(p, c))
    ensures forall q: nat :: q < NPROC ==> ExitSlot(s, p, q, Apply(s, Exit(p, c)).t[q])
  {
    forall q: nat | q < NPROC
      ensures ExitSlot(s, p, q, Apply(s, Exit(p, c)).t[q])
    {
      ExitedSlot(s.t, p, s.init, q);
    }
  }

  ghost predicate ForkActs(s: Sys, a: Action) {
    a.ForkFail? || a.ForkParent? || a.ForkDone? ==> a.p < NPROC && |s.forking| == NPROC && ForkOk(s, a.p)
  }

  lemma CpuStep(s: Sys, a: Action)
    requires Enabled(s, a) && ForkActs(s, a) && CpusApart(s) && CpusInRange(s) && forall p: nat :: p < NPROC ==>
             CpuOk(s, p)
    ensures var s' := Apply(s, a); CpusApart(s') && CpusInRange(s') && forall p: nat :: p < NPROC ==> CpuOk(s', p)
  {
    hide Exited;
    var s' := Apply(s, a);
    if a.Sched? {
      assert CpuOk(s, a.p);
    }
    forall p: nat | p < NPROC
      ensures CpuOk(s', p)
    {
      CpuOne(s, a, p);
    }
  }

  lemma CpuOne(s: Sys, a: Action, p: nat)
    requires Enabled(s, a) && ForkActs(s, a) && CpusApart(s) && p < NPROC && CpuOk(s, p)
    ensures CpuOk(Apply(s, a), p)
  {
    hide Exited;
    if a.Exit? {
      ExitSlots(s, a.p, a.c);
    }
    var s' := Apply(s, a);
    OnCpuSteps(s.cpu, s'.cpu, p, if a.Exit? || a.WaitSleep? || a.Sleep? || a.Yield? || a.Sched? then a.c else 0);
  }

  /** Emptying or filling one CPU changes where its own process is and nobody else's place. */
  lemma OnCpuSteps(cpu: seq<int>, cpu': seq<int>, p: nat, c: nat)
    requires |cpu'| == |cpu| && forall d: nat :: d < |cpu| && d != c ==> cpu'[d] == cpu[d]
    requires forall c: nat, d: nat :: c < d < |cpu| && cpu[c] == cpu[d] ==> cpu[c] < 0
    ensures c < |cpu| && cpu'[c] == p ==> OnCpu(cpu', p)
    ensures c < |cpu| && cpu[c] == p && cpu'[c] < 0 ==> OnCpu(cpu, p) && !OnCpu(cpu', p)
    ensures (c < |cpu| ==> (cpu'[c] == p <==> cpu[c] == p)) ==> (OnCpu(cpu', p) <==> OnCpu(cpu, p))
  {
  }

  lemma ForkStep(s: Sys, a: Action)
    requires Enabled(s, a) && |s.forking| == NPROC && ForksApart(s) && forall p: nat :: p < NPROC ==> ForkOk(s, p)
    ensures var s' := Apply(s, a); |s'.forking| == NPROC && ForksApart(s') && forall p: nat :: p < NPROC ==>
            ForkOk(s', p)
  {
    hide Exited;
    if a.Exit? {
      ExitSlots(s, a.p, a.c);
    }
    var s' := Apply(s, a);
    forall p: nat | p < NPROC
      ensures ForkOk(s', p)
    {
      assert ForkOk(s, p);
      if a.ForkFail? || a.ForkDone? {
        assert ForkOk(s, a.p);
      }
    }
    if a.ForkAlloc? {
      forall q: nat | q < NPROC && q != a.p
        ensures s.forking[q] != a.np
      {
        assert ForkOk(s, q);
      }
    }
  }

  lemma WaitStep(s: Sys, a: Action, p: nat, q: nat)
    requires Enabled(s, a) && ForkActs(s, a) && s.init < NPROC && p < NPROC && q < NPROC && WaitOk(s, p, q) &&
             ParentOk(s, q) && ParentOk(s, p)
    requires a.Exit? ==> ParentOk(s, a.p)
    ensures WaitOk(Apply(s, a), p, q)
  {
    hide Exited;
    if a.Exit? {
      ExitSlots(s, a.p, a.c);
      assert ZombieChild(s.t[q], a.p) ==> HasZombie(s.t, a.p);
    }
  }

  lemma WaiterStep(s: Sys, a: Action, p: nat)
    requires Enabled(s, a) && ForkActs(s, a) && p < NPROC && WaiterOk(s, p) && ForksApart(s)
    requires forall q: nat :: q < NPROC ==> ParentOk(s, q)
    ensures WaiterOk(Apply(s, a), p)
  {
    hide Exited, Woken;
    var s' := Apply(s, a);
    if s'.t[p].state == SLEEPING && s'.t[p].chan.OfProc? {
      if a.Exit? {
        ExitedSlot(s.t, a.p, s.init, p);
      }
      WaiterWas(s, a, p);
      var j: nat :| j < NPROC && ChildOf(s.t[j], p);
      assert ParentOk(s, j);
      ChildKept(s, a, p, j);
      assert ChildOf(s'.t[j], p);
    }
  }

  /** Who sleeps in wait after a step did before or has just been found to have children. */
  lemma WaiterWas(s: Sys, a: Action, p: nat)
    requires Enabled(s, a) && ForkActs(s, a) && p < NPROC && WaiterOk(s, p)
    requires Apply(s, a).t[p].state == SLEEPING && Apply(s, a).t[p].chan.OfProc?
    ensures HasChild(s.t, p) && !Apply(s, a).t[p].killed && !(a.Exit? && a.p == p) && !(a.Reap? && a.p == p)
  {
    hide Exited;
    if a.Exit? {
      ExitedSlot(s.t, a.p, s.init, p);
    }
  }

  lemma ChildKept(s: Sys, a: Action, p: nat, j: nat)
    requires Enabled(s, a) && ForkActs(s, a) && p < NPROC && j < NPROC && ChildOf(s.t[j], p) && ParentOk(s, j)
    requires ForksApart(s) && !(a.Exit? && a.p == p) && !(a.Reap? && a.p == p)
    ensures ChildOf(Apply(s, a).t[j], p)
  {
    hide Exited;
    if a.Exit? {
      ExitedSlot(s.t, a.p, s.init, j);
    }
  }

  lemma PidStep(s: Sys, a: Action, p: nat, q: nat)
    requires Enabled(s, a) && |s.forking| == NPROC && 0 < s.nextpid && p < NPROC && q < NPROC && PidOk(s, p) &&
             PidOk(s, q) && PidsApart(s, p, q) && ReapOk(s)
    requires forall x: nat :: x < NPROC ==> PidOk(s, x) && ForkOk(s, x) && PidsApart(s, x, p)
    requires forall pid: nat :: ExitOk(s, pid)
    ensures PidOk(Apply(s, a), p) && PidsApart(Apply(s, a), p, q)
  {
    hide Exited;
    if a.Exit? {
      ExitSlots(s, a.p, a.c);
    }
    assert ExitOk(s, s.nextpid) && ExitOk(s, 0);
    if a.ForkFail? || a.ForkParent? || a.ForkDone? {
      assert ForkOk(s, a.p);
    }
    if a.Exit? {
      assert PidsApart(s, a.p, p) && PidOk(s, a.p);
    }
    if a.Reap? {
      assert PidsApart(s, a.q, p) && PidOk(s, a.q);
    }
  }

  lemma ParentStep(s: Sys, a: Action, q: nat)
    requires Enabled(s, a) && Inv(s) && q < NPROC
    ensures ParentOk(Apply(s, a), q)
  {
    hide Apply, CpuOk, PidOk, PidsApart, ExitOk, WaitOk, WaiterOk;
    assert ForkActs(s, a) by {
      if a.ForkFail? || a.ForkParent? || a.ForkDone? {
        assert ForkOk(s, a.p);
      }
    }
    assert ParentOk(s, q) && ParentOk(s, s.init);
    if s.t[q].state == EMBRYO {
      var p: nat :| ForkedBy(s, q, p) && (s.t[q].parent == -1 || s.t[q].parent == p);
      assert ForkOk(s, p) && ParentOk(s, p);
      EmbryoStep(s, a, q, p);
    } else if s.t[q].state == UNUSED {
      UnusedStep(s, a, q);
    } else {
      LiveStep(s, a, q);
    }
  }

  lemma UnusedStep(s: Sys, a: Action, q: nat)
    requires Enabled(s, a) && ForkActs(s, a) && s.init < NPROC && q < NPROC && ParentOk(s, q) && s.t[q].state == UNUSED
    ensures ParentOk(Apply(s, a), q)
  {
    hide Exited;
    if a.Exit? {
      ExitSlots(s, a.p, a.c);
    }
    if a.ForkAlloc? && a.np == q {
      assert ForkedBy(Apply(s, a), q, a.p);
    }
  }

  lemma LiveStep(s: Sys, a: Action, q: nat)
    requires Enabled(s, a) && ForkActs(s, a) && s.init < NPROC && q < NPROC && ParentOk(s, q) && ParentOk(s, s.init)
    requires s.t[q].state != UNUSED && s.t[q].state != EMBRYO
    ensures ParentOk(Apply(s, a), q)
  {
    hide Exited;
    if a.Exit? {
      LiveExit(s, a, q);
    }
  }

  lemma LiveExit(s: Sys, a: Action, q: nat)
    requires a.Exit? && Enabled(s, a) && s.init < NPROC && q < NPROC && ParentOk(s, q) && ParentOk(s, s.init)
    requires s.t[q].state != UNUSED && s.t[q].state != EMBRYO
    ensures ParentOk(Apply(s, a), q)
  {
    hide Exited;
    ExitSlots(s, a.p, a.c);
  }

  lemma EmbryoStep(s: Sys, a: Action, q: nat, p: nat)
    requires Enabled(s, a) && s.init < NPROC && q < NPROC && s.t[q].state == EMBRYO && ForkedBy(s, q, p) &&
             (s.t[q].parent == -1 || s.t[q].parent == p)
    requires ForkOk(s, p) && q != s.init && ForksApart(s) && ForkActs(s, a)
    ensures ParentOk(Apply(s, a), q)
  {
    hide Exited;
    if a.Exit? {
      EmbryoExit(s, a, q, p);
    } else if !(a.ForkFail? || a.ForkDone?) || a.p != p {
      assert ForkedBy(Apply(s, a), q, p);
    }
  }

  lemma EmbryoExit(s: Sys, a: Action, q: nat, p: nat)
    requires a.Exit? && Enabled(s, a) && s.init < NPROC && q < NPROC && s.t[q].state == EMBRYO && ForkedBy(s, q, p)
    requires (s.t[q].parent == -1 || s.t[q].parent == p) && ForkOk(s, p) && q != s.init
    ensures ParentOk(Apply(s, a), q)
  {
    hide Exited;
    ExitSlots(s, a.p, a.c);
    assert ForkedBy(Apply(s, a), q, p);
  }

  lemma ReapStep(s: Sys, a: Action)
    requires Enabled(s, a) && Inv(s)
    ensures ReapOk(Apply(s, a)) && Apply(s, a).init == s.init && 0 < Apply(s, a).nextpid
  {
    hide Exited, CpuOk, ParentOk, ForkOk, WaitOk, WaiterOk, PidsApart, ExitOk;
    if a.Reap? {
      assert PidOk(s, a.q);
    }
  }

  lemma ExitStep(s: Sys, a: Action, pid: nat)
    requires Enabled(s, a) && Inv(s)
    ensures ExitOk(Apply(s, a), pid)
  {
    hide Exited, CpuOk, ParentOk, WaitOk, WaiterOk;
    var s' := Apply(s, a);
    assert ExitOk(s, pid);
    if a.Exit? {
      ExitSlots(s, a.p, a.c);
      assert PidOk(s, a.p);
    }
    if a.ForkFail? || a.ForkParent? || a.ForkDone? {
      assert ForkOk(s, a.p);
    }
    if pid in s'.exited && pid !in s'.reaped {
      if a.Exit? && pid == s.t[a.p].pid {
        assert s'.t[a.p].state == ZOMBIE && s'.t[a.p].pid == pid;
      } else {
        var q: nat :| q < NPROC && s.t[q].state == ZOMBIE && s.t[q].pid == pid;
        assert s'.t[q].state == ZOMBIE && s'.t[q].pid == pid;
      }
    }
  }

  lemma StepInv(s: Sys, a: Action)
    requires Enabled(s, a) && Inv(s)
    ensures Inv(Apply(s, a))
  {
    var s' := Apply(s, a);
    assert ForkActs(s, a) by {
      if a.ForkFail? || a.ForkParent? || a.ForkDone? {
        assert ForkOk(s, a.p);
      }
    }
    CpuStep(s, a);
    ForkStep(s, a);
    ReapStep(s, a);
    hide Apply, Enabled, CpuOk, ForkOk, CpusApart, CpusInRange, ForksApart, ReapOk, PidOk, ParentOk, WaitOk, WaiterOk,
      PidsApart, ExitOk;
    forall p: nat | p < NPROC
      ensures ParentOk(s', p) && WaiterOk(s', p)
    {
      ParentStep(s, a, p);
      WaiterStep(s, a, p);
    }
    forall p: nat, q: nat | p < NPROC && q < NPROC
      ensures WaitOk(s', p, q) && PidsApart(s', p, q) && PidOk(s', p)
    {
      PairStep(s, a, p, q);
    }
    forall p: nat | p < NPROC
      ensures PidOk(s', p)
    {
      PairStep(s, a, p, p);
    }
    forall pid: nat
      ensures ExitOk(s', pid)
    {
      ExitStep(s, a, pid);
    }
  }

  lemma PairStep(s: Sys, a: Action, p: nat, q: nat)
    requires Enabled(s, a) && Inv(s) && ForkActs(s, a) && p < NPROC && q < NPROC
    ensures WaitOk(Apply(s, a), p, q) && PidsApart(Apply(s, a), p, q) && PidOk(Apply(s, a), p)
  {
    hide Apply, CpuOk, ForkOk, PidOk, ParentOk, WaiterOk, PidsApart, ExitOk;
    WaitStep(s, a, p, q);
    PidStep(s, a, p, q);
  }

  lemma {:induction false} RunInv(run: seq<Sys>, i: nat)
    requires IsRun(run) && i < |run|
    ensures Inv(run[i])
  {
    if i == 0 {
      InitInv(run[0]);
    } else {
      RunInv(run, i - 1);
      assert Next(run[i - 1], run[i - 1 + 1]);
      var a :| Enabled(run[i - 1], a) && run[i] == Apply(run[i - 1], a);
      StepInv(run[i - 1], a);
    }
  }

  // ---------------------------------------------------------------- what follows for every run

  /** Every process but init, dead or alive, has a parent that is alive. */
  lemma LiveParent(run: seq<Sys>, i: nat, q: nat)
    requires IsRun(run) && i < |run| && q < NPROC && q != run[i].init &&
             (Alive(run[i].t[q]) || run[i].t[q].state == ZOMBIE)
    ensures 0 <= run[i].t[q].parent < NPROC && run[i].t[q].parent != q && Alive(run[i].t[run[i].t[q].parent])
  {
    RunInv(run, i);
    assert ParentOk(run[i], q);
  }

  /** No process sleeps in wait while it has a zombie child, without a child to wait for, or once it is killed. */
  lemma NoSleepOverZombie(run: seq<Sys>, i: nat, p: nat)
    requires IsRun(run) && i < |run| && p < NPROC && run[i].t[p].state == SLEEPING && run[i].t[p].chan.OfProc?
    ensures run[i].t[p].chan.p == p && !HasZombie(run[i].t, p) && HasChild(run[i].t, p) && !run[i].t[p].killed
  {
    RunInv(run, i);
    assert WaitOk(run[i], p, p) && WaiterOk(run[i], p);
    forall q: nat | q < NPROC
      ensures !ZombieChild(run[i].t[q], p)
    {
      assert WaitOk(run[i], p, q);
    }
  }

  /** Two slots never have the same pid, but for 0, and none has that of a process that was collected: kill(pid) hits
      the process it names or nobody. */
  lemma PidsUnique(run: seq<Sys>, i: nat, p: nat, q: nat)
    requires IsRun(run) && i < |run| && p < NPROC && q < NPROC
    ensures run[i].t[q].pid !in run[i].reaped
    ensures run[i].t[p].pid == run[i].t[q].pid != 0 ==> p == q
  {
    RunInv(run, i);
    assert PidOk(run[i], q) && PidsApart(run[i], p, q);
  }

  /** A process runs exactly when one CPU, and no other, has it. */
  lemma RunningOnOneCpu(run: seq<Sys>, i: nat, p: nat)
    requires IsRun(run) && i < |run| && p < NPROC
    ensures run[i].t[p].state == RUNNING <==> exists c: nat :: c < |run[i].cpu| && run[i].cpu[c] == p
    ensures forall c: nat, d: nat ::
              c < |run[i].cpu| && d < |run[i].cpu| && run[i].cpu[c] == p && run[i].cpu[d] == p ==> c == d
  {
    RunInv(run, i);
    assert CpuOk(run[i], p);
    forall c: nat, d: nat | c < |run[i].cpu| && d < |run[i].cpu| && run[i].cpu[c] == p && run[i].cpu[d] == p
      ensures c == d
    {
      var lo, hi := if c < d then c else d, if c < d then d else c;
      assert run[i].cpu[lo] == run[i].cpu[hi];
    }
  }

  /** Each exited process is collected at most once, and until then it is there as a zombie. */
  lemma ReapedOnce(run: seq<Sys>, i: nat)
    requires IsRun(run) && i < |run|
    ensures forall j, k :: 0 <= j < k < |run[i].reaped| ==> run[i].reaped[j] != run[i].reaped[k]
    ensures forall pid :: pid in run[i].reaped ==> pid in run[i].exited
    ensures forall pid :: pid in run[i].exited ==>
            (pid !in run[i].reaped <==>
              exists q: nat :: q < NPROC && run[i].t[q].state == ZOMBIE && run[i].t[q].pid == pid)
  {
    RunInv(run, i);
    forall pid | pid in run[i].exited
      ensures pid !in run[i].reaped <==>
                exists q: nat :: q < NPROC && run[i].t[q].state == ZOMBIE && run[i].t[q].pid == pid
    {
      assert ExitOk(run[i], pid);
      forall q: nat | q < NPROC && run[i].t[q].state == ZOMBIE && run[i].t[q].pid == pid
        ensures pid !in run[i].reaped
      {
        assert PidOk(run[i], q);
      }
    }
  }

  // ---------------------------------------------------------------- who falls asleep and who is woken

  /** A run with the actions it takes. */
  ghost predicate Takes(run: seq<Sys>, acts: seq<Action>) {
    |run| == |acts| + 1 && forall k :: 0 <= k < |acts| ==>
    Enabled(run[k], acts[k]) && run[k + 1] == Apply(run[k], acts[k])
  }

  /** What wakes the sleeper in slot q: a wakeup on what it sleeps on, an exit that wakes that process, or a kill. */
  predicate Wakes(s: Sys, a: Action, q: nat)
    requires q < NPROC
  {
    a == Kill(q) || (a.Wakeup? && s.t[q].chan == Other(a.a)) ||
    (a.Exit? && a.p < NPROC &&
     (s.t[q].chan == ChanOf(s.t[a.p].parent) || (s.t[q].chan == OfProc(s.init) && HasZombie(s.t, a.p))))
  }

  predicate GoesToSleep(a: Action, q: nat) {
    (a.Sleep? || a.WaitSleep?) && a.p == q
  }

  /** A process is asleep after a step exactly if it has just called sleep or was asleep and the step did not wake it;
      and who is woken becomes runnable, with its pid and what it slept on unchanged. */
  lemma AsleepIff(s: Sys, a: Action, q: nat)
    requires Enabled(s, a) && ForkActs(s, a) && q < NPROC
    ensures var e := Apply(s, a).t[q];
            e.state == SLEEPING <==> GoesToSleep(a, q) || (s.t[q].state == SLEEPING && !Wakes(s, a, q))
    ensures var e := Apply(s, a).t[q];
            s.t[q].state == SLEEPING && Wakes(s, a, q) ==>
              e.state == RUNNABLE && e.pid == s.t[q].pid && e.chan == s.t[q].chan
  {
    hide Exited;
    if a.Exit? {
      ExitedSlot(s.t, a.p, s.init, q);
    }
  }

  /** kill marks its process and wakes it; it changes nothing else of it, and of the others nothing. */
  lemma KillWakes(s: Sys, q: nat)
    requires q < NPROC
    ensures var e, s' := s.t[q], Apply(s, Kill(q));
            s'.t[q].killed && s'.t[q].state != SLEEPING &&
            (s'.t[q].state == RUNNABLE <==> e.state == SLEEPING || e.state == RUNNABLE) &&
            (e.state != SLEEPING ==> s'.t[q].state == e.state) &&
            s'.t[q].pid == e.pid && s'.t[q].parent == e.parent && s'.t[q].chan == e.chan &&
            s' == s.(t := s'.t) && forall p :: 0 <= p < NPROC && p != q ==> s'.t[p] == s.t[p]
  {
  }

  /** In every run a process that was killed and is asleep has called sleep since; so it gets to see that it is
      killed. */
  lemma {:induction false} KilledGetsToRun(run: seq<Sys>, acts: seq<Action>, i: nat, j: nat, q: nat)
    requires IsRun(run) && Takes(run, acts) && i < j <= |acts| && q < NPROC && acts[i] == Kill(q)
    requires run[j].t[q].state == SLEEPING
    ensures exists k :: i < k < j && GoesToSleep(acts[k], q)
    decreases j
  {
    hide Apply, Enabled;
    RunInv(run, j - 1);
    assert ForkActs(run[j - 1], acts[j - 1]) by {
      if acts[j - 1].ForkFail? || acts[j - 1].ForkParent? || acts[j - 1].ForkDone? {
        EnabledFork(run[j - 1], acts[j - 1]);
      }
    }
    AsleepIff(run[j - 1], acts[j - 1], q);
    if !GoesToSleep(acts[j - 1], q) {
      KilledGetsToRun(run, acts, i, j - 1, q);
    }
  }

  lemma EnabledFork(s: Sys, a: Action)
    requires Enabled(s, a) && Inv(s) && (a.ForkFail? || a.ForkParent? || a.ForkDone?)
    ensures a.p < NPROC && ForkOk(s, a.p)
  {
  }

  // ---------------------------------------------------------------- who is born killed

  lemma KilledStep(s: Sys, a: Action, q: nat)
    requires Enabled(s, a) && q < NPROC
    ensures Apply(s, a).t[q].killed <==> a == Kill(q) || (s.t[q].killed && !(a.Reap? && a.q == q))
  {
    hide Exited;
    if a.Exit? {
      ExitedSlot(s.t, a.p, s.init, q);
    }
  }

  ghost predicate KilledIn(acts: seq<Action>, i: nat, j: nat, q: nat) {
    exists k :: i <= k < j <= |acts| && acts[k] == Kill(q)
  }

  /** Only wait clears `killed`: between two times a slot is reaped, it is marked exactly when it was marked before or
      a kill has hit the slot, whether a process had it or not. So a forked child starts unkilled if and only if no kill
      has hit its slot since the slot was last reaped. */
  lemma {:induction false} KilledIff(run: seq<Sys>, acts: seq<Action>, i: nat, j: nat, q: nat)
    requires Takes(run, acts) && i <= j <= |acts| && q < NPROC
    requires forall k :: i <= k < j ==> !(acts[k].Reap? && acts[k].q == q)
    ensures run[j].t[q].killed <==> run[i].t[q].killed || KilledIn(acts, i, j, q)
    decreases j
  {
    hide Apply, Enabled;
    if i < j {
      KilledIff(run, acts, i, j - 1, q);
      KilledStep(run[j - 1], acts[j - 1], q);
      if KilledIn(acts, i, j - 1, q) {
        var k :| i <= k < j - 1 && acts[k] == Kill(q);
        assert acts[k] == Kill(q);
      }
      if acts[j - 1] == Kill(q) {
        assert KilledIn(acts, i, j, q);
      }
    }
  }

  function Booted(): Sys {
    Sys(seq(NPROC, p => if p == 0 then Proc(RUNNABLE, 1, -1, Nothing, false) else Proc(UNUSED, 0, -1, Nothing, false)),
        [-1], 2, 0, seq(NPROC, p => -1), {}, [])
  }

  /** kill(0) finds the first slot nobody has, and the next child forked there is killed before it has run. */
  lemma BornKilled() returns (run: seq<Sys>, acts: seq<Action>)
    ensures IsRun(run) && Takes(run, acts) && acts == [Sched(0, 0), Kill(1), ForkAlloc(0, 1), ForkParent(0),
              ForkDone(0)]
    ensures run[1].t[1].pid == 0 && NoneBefore(run[1].t, 1, (e: Proc) => e.pid == 0)
    ensures run[5].t[1].state == RUNNABLE && run[5].t[1].parent == 0 && run[5].t[1].killed
  {
    hide Exited, Woken;
    var s0 := Booted();
    var s1 := Apply(s0, Sched(0, 0));
    var s2 := Apply(s1, Kill(1));
    var s3, s4, s5 := ForkSteps(s2);
    run, acts := [s0, s1, s2, s3, s4, s5], [Sched(0, 0), Kill(1), ForkAlloc(0, 1), ForkParent(0), ForkDone(0)];
    TakesRuns(run, acts);
  }

  /** The three steps of a fork by process 0 into slot 1. */
  lemma ForkSteps(s: Sys) returns (s1: Sys, s2: Sys, s3: Sys)
    requires Ready(s, 0) && s.t[1].state == UNUSED
    ensures Enabled(s, ForkAlloc(0, 1)) && s1 == Apply(s, ForkAlloc(0, 1))
    ensures Enabled(s1, ForkParent(0)) && s2 == Apply(s1, ForkParent(0))
    ensures Enabled(s2, ForkDone(0)) && s3 == Apply(s2, ForkDone(0))
    ensures s3.t[1] == s.t[1].(state := RUNNABLE, pid := s.nextpid, parent := 0)
  {
    hide Exited, Woken;
    s1 := Apply(s, ForkAlloc(0, 1));
    s2 := Apply(s1, ForkParent(0));
    s3 := Apply(s2, ForkDone(0));
  }

  lemma TakesRuns(run: seq<Sys>, acts: seq<Action>)
    requires Takes(run, acts) && Init(run[0])
    ensures IsRun(run)
  {
    forall i | 0 <= i < |run| - 1
      ensures Next(run[i], run[i + 1])
    {
      assert Enabled(run[i], acts[i]);
    }
  }

  // ---------------------------------------------------------------- one child from fork to wait

  /** Slots 0 and 1 are e0 and e1 and no other is in use; the one CPU runs process cpu, or none; process 0 is forking
      into slot f, or not. */
  ghost predicate Pair(s: Sys, e0: Proc, e1: Proc, cpu: int, f: int) {
    s.init == 0 && s.t[0] == e0 && s.t[1] == e1 && s.cpu == [cpu] &&
    (forall q :: 2 <= q < NPROC ==> s.t[q].state == UNUSED && s.t[q].parent == -1) &&
    |s.forking| == NPROC && s.forking[0] == f && s.forking[1] == -1
  }

  lemma PairChildren(s: Sys, e0: Proc, e1: Proc, cpu: int, f: int)
    requires Pair(s, e0, e1, cpu, f) && e0.parent == -1
    ensures HasChild(s.t, 0) <==> e1.parent == 0
    ensures HasZombie(s.t, 0) <==> ZombieChild(e1, 0)
  {
    assert e1.parent == 0 ==> ChildOf(s.t[1], 0);
    assert ZombieChild(e1, 0) ==> ZombieChild(s.t[1], 0);
  }

  lemma PairSched(s: Sys, e0: Proc, e1: Proc, f: int, q: nat) returns (s': Sys)
    requires Pair(s, e0, e1, -1, f) && q < 2 && (if q == 0 then e0 else e1).state == RUNNABLE
    ensures Enabled(s, Sched(q, 0)) && s' == Apply(s, Sched(q, 0))
    ensures s'.nextpid == s.nextpid && s'.exited == s.exited && s'.reaped == s.reaped
    ensures q == 0 ==> Pair(s', e0.(state := RUNNING, chan := Nothing), e1, 0, f)
    ensures q == 1 ==> Pair(s', e0, e1.(state := RUNNING, chan := Nothing), 1, f)
  {
    hide Exited, Woken;
    s' := Apply(s, Sched(q, 0));
  }

  lemma PairWaits(s: Sys, e0: Proc, e1: Proc) returns (s': Sys)
    requires Pair(s, e0, e1, 0, -1) && e0.state == RUNNING && !e0.killed && e0.parent == -1
    requires e1.parent == 0 && e1.state != ZOMBIE
    ensures Enabled(s, WaitSleep(0, 0)) && s' == Apply(s, WaitSleep(0, 0))
    ensures s'.exited == s.exited && s'.reaped == s.reaped && s'.t[0].state == SLEEPING
    ensures Pair(s', e0.(state := SLEEPING, chan := OfProc(0)), e1, -1, -1)
  {
    hide Exited, Woken;
    PairChildren(s, e0, e1, 0, -1);
    s' := Apply(s, WaitSleep(0, 0));
  }

  lemma PairSleeps(s: Sys, e0: Proc, e1: Proc, a: nat) returns (s1: Sys, s2: Sys)
    requires Pair(s, e0, e1, 1, -1) && e1.state == RUNNING && e0.chan != Other(a)
    ensures Enabled(s, Sleep(1, 0, a)) && s1 == Apply(s, Sleep(1, 0, a))
    ensures Enabled(s1, Wakeup(a)) && s2 == Apply(s1, Wakeup(a)) && s2.exited == s.exited && s2.reaped == s.reaped
    ensures Pair(s1, e0, e1.(state := SLEEPING, chan := Other(a)), -1, -1)
    ensures Pair(s2, e0, e1.(state := RUNNABLE, chan := Other(a)), -1, -1)
  {
    hide Exited;
    s1 := Apply(s, Sleep(1, 0, a));
    s2 := Apply(s1, Wakeup(a));
  }

  lemma PairExits(s: Sys, e0: Proc, e1: Proc) returns (s': Sys)
    requires Pair(s, e0, e1, 1, -1) && e1.state == RUNNING && e1.parent == 0
    requires e0.state == SLEEPING && e0.chan == OfProc(0) && e0.parent == -1
    ensures Enabled(s, Exit(1, 0)) && s' == Apply(s, Exit(1, 0))
    ensures s'.exited == s.exited + {e1.pid} && s'.reaped == s.reaped
    ensures s'.t[0].state == RUNNABLE && s'.t[1].state == ZOMBIE
    ensures Pair(s', e0.(state := RUNNABLE), e1.(state := ZOMBIE), -1, -1)
  {
    hide Exited, Woken;
    s' := Apply(s, Exit(1, 0));
    forall q: nat | q < NPROC
      ensures var e := s'.t[q];
              e.pid == s.t[q].pid && e.chan == s.t[q].chan && e.killed == s.t[q].killed &&
              e.parent == (if s.t[q].parent == 1 then 0 else s.t[q].parent) &&
              (q >= 2 ==> e.state == UNUSED) && (q == 1 ==> e.state == ZOMBIE) && (q == 0 ==> e.state == RUNNABLE)
    {
      ExitedSlot(s.t, 1, 0, q);
    }
  }

  lemma PairReaps(s: Sys, e0: Proc, e1: Proc) returns (s': Sys)
    requires Pair(s, e0, e1, 0, -1) && e0.state == RUNNING && ZombieChild(e1, 0)
    ensures Enabled(s, Reap(0, 1)) && s' == Apply(s, Reap(0, 1))
    ensures s'.exited == s.exited && s'.reaped == s.reaped + [e1.pid] && s'.t[1].state == UNUSED
  {
    hide Exited, Woken;
    s' := Apply(s, Reap(0, 1));
  }

  lemma BootedPair()
    ensures Init(Booted()) && Booted().nextpid == 2 && Booted().reaped == []
    ensures Pair(Booted(), Proc(RUNNABLE, 1, -1, Nothing, false), Proc(UNUSED, 0, -1, Nothing, false), -1, -1)
  {
  }

  lemma PairForks(s: Sys, e0: Proc, e1: Proc) returns (s1: Sys, s2: Sys, s3: Sys)
    requires Pair(s, e0, e1, 0, -1) && e0.state == RUNNING && e1 == Proc(UNUSED, 0, -1, Nothing, false)
    requires s.nextpid == 2
    ensures Enabled(s, ForkAlloc(0, 1)) && s1 == Apply(s, ForkAlloc(0, 1))
    ensures Enabled(s1, ForkParent(0)) && s2 == Apply(s1, ForkParent(0))
    ensures Enabled(s2, ForkDone(0)) && s3 == Apply(s2, ForkDone(0)) && s3.exited == s.exited && s3.reaped == s.reaped
    ensures Pair(s3, e0, Proc(RUNNABLE, 2, 0, Nothing, false), 0, -1)
  {
    hide Exited, Woken;
    s1 := Apply(s, ForkAlloc(0, 1));
    s2 := Apply(s1, ForkParent(0));
    s3 := Apply(s2, ForkDone(0));
  }

  /** A run of the whole story: init forks a child and sleeps in wait; the child runs, sleeps, is woken and exits, which
      wakes init; and init collects it. */
  lemma Lifecycle() returns (run: seq<Sys>, acts: seq<Action>)
    ensures IsRun(run) && Takes(run, acts)
    ensures acts == [Sched(0, 0), ForkAlloc(0, 1), ForkParent(0), ForkDone(0), WaitSleep(0, 0), Sched(1, 0),
                     Sleep(1, 0, 7), Wakeup(7), Sched(1, 0), Exit(1, 0), Sched(0, 0), Reap(0, 1)]
    ensures run[5].t[0].state == SLEEPING && run[10].t[0].state == RUNNABLE && run[10].t[1].state == ZOMBIE
    ensures run[12].reaped == [2] && run[12].t[1].state == UNUSED
  {
    hide Exited, Woken, Apply, Enabled, Pair, Booted, Init;
    var s0 := Booted();
    BootedPair();
    var i0, none := Proc(RUNNABLE, 1, -1, Nothing, false), Proc(UNUSED, 0, -1, Nothing, false);
    var s1 := PairSched(s0, i0, none, -1, 0);
    var i1 := i0.(state := RUNNING);
    var s2, s3, s4 := PairForks(s1, i1, none);
    var c := Proc(RUNNABLE, 2, 0, Nothing, false);
    var s5 := PairWaits(s4, i1, c);
    var i2 := i1.(state := SLEEPING, chan := OfProc(0));
    var s6 := PairSched(s5, i2, c, -1, 1);
    var s7, s8 := PairSleeps(s6, i2, c.(state := RUNNING), 7);
    var s9 := PairSched(s8, i2, c.(chan := Other(7)), -1, 1);
    var s10 := PairExits(s9, i2, c.(state := RUNNING));
    var s11 := PairSched(s10, i2.(state := RUNNABLE), c.(state := ZOMBIE), -1, 0);
    var s12 := PairReaps(s11, i1, c.(state := ZOMBIE));
    run := [s0, s1, s2, s3, s4, s5, s6, s7, s8, s9, s10, s11, s12];
    acts := [Sched(0, 0), ForkAlloc(0, 1), ForkParent(0), ForkDone(0), WaitSleep(0, 0), Sched(1, 0),
      Sleep(1, 0, 7), Wakeup(7), Sched(1, 0), Exit(1, 0), Sched(0, 0), Reap(0, 1)];
    TakesRuns(run, acts);
  }
}
