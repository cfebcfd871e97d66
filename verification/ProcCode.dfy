/** The code of proc.c that scans the process table under ptable.lock. Each method is a step of the machine in ProcRuns,
    and where it does nothing, that step is not possible. */
module ProcCode {
  import opened ProcTable
  import opened ProcRuns

  class Ptable {
    const proc: array<Proc>
    const initproc: nat
    var nextpid: nat

    constructor (initproc: nat)
      requires initproc < NPROC
      ensures fresh(proc) && proc.Length == NPROC && this.initproc == initproc && nextpid == 1
      ensures forall q :: 0 <= q < NPROC ==> proc[q] == Proc(UNUSED, 0, -1, Nothing, false)
    {
      proc := new Proc[NPROC](i => Proc(UNUSED, 0, -1, Nothing, false));
      this.initproc, nextpid := initproc, 1;
    }

    ghost function Abs(): Table
      requires proc.Length == NPROC
      reads proc
    {
      proc[..]
    }

    method Wakeup1(chan: Chan)
      requires proc.Length == NPROC
      modifies proc
      ensures Abs() == Woken(old(Abs()), chan)
      ensures forall s: Sys, a: nat :: s.t == old(Abs()) && chan == Other(a) ==> Apply(s, Wakeup(a)).t == Abs()
    {
      var p := 0;
      while p < NPROC
        invariant p <= NPROC
        invariant forall q :: 0 <= q < NPROC ==> proc[q] == if q < p then Wake(old(proc[q]), chan) else old(proc[q])
      {
        if proc[p].state == SLEEPING && proc[p].chan == chan {
          proc[p] := proc[p].(state := RUNNABLE);
        }
        p := p + 1;
      }
    }

    /** The part of allocproc under the lock: the first unused slot, or -1. */
    method Allocproc() returns (r: int)
      requires proc.Length == NPROC
      modifies proc, this`nextpid
      ensures -1 <= r < NPROC && NoneBefore(old(Abs()), if r < 0 then NPROC else r, (e: Proc) => e.state == UNUSED)
      ensures r < 0 ==> Abs() == old(Abs()) && nextpid == old(nextpid)
      ensures r >= 0 ==> old(Abs())[r].state == UNUSED && nextpid == old(nextpid) + 1
      ensures r >= 0 ==> Abs() == old(Abs())[r := old(Abs())[r].(state := EMBRYO, pid := old(nextpid))]
      ensures forall s: Sys, p: nat :: s.t == old(Abs()) && s.nextpid == old(nextpid) && Ready(s, p) ==>
                if r < 0 then forall np: nat :: !Enabled(s, ForkAlloc(p, np))
                else Enabled(s, ForkAlloc(p, r)) && Apply(s, ForkAlloc(p, r)).t == Abs() &&
                     Apply(s, ForkAlloc(p, r)).nextpid == nextpid
    {
      var p := 0;
      while p < NPROC
        invariant p <= NPROC && Abs() == old(Abs()) && NoneBefore(Abs(), p, (e: Proc) => e.state == UNUSED)
        modifies {}
      {
        if proc[p].state == UNUSED {
          break;
        }
        p := p + 1;
      }
      if p == NPROC {
        return -1;
      }
      proc[p] := proc[p].(state := EMBRYO, pid := nextpid);
      nextpid := nextpid + 1;
      r := p;
    }

    /** The part of exit under the lock; `ok` is false where init exits, which panics. */
    method Exit(cur: nat) returns (ok: bool)
      requires proc.Length == NPROC && cur < NPROC && initproc < NPROC
      modifies proc
      ensures ok == (cur != initproc) && Abs() == if ok then Exited(old(Abs()), cur, initproc) else old(Abs())
      ensures forall s: Sys, c: nat :: s.t == old(Abs()) && s.init == initproc && Ready(s, cur) && Runs(s, cur, c) ==>
                Enabled(s, Action.Exit(cur, c)) == ok && (ok ==> Apply(s, Action.Exit(cur, c)).t == Abs())
    {
      if cur == initproc {
        return false;
      }
      Wakeup1(ChanOf(proc[cur].parent));
      ghost var t := Abs();
      var p := 0;
      while p < NPROC
        invariant p <= NPROC && Abs() == Passed(t, cur, initproc, p)
      {
        PassedNext(t, cur, initproc, p);
        if proc[p].parent == cur {
          proc[p] := proc[p].(parent := initproc);
          if proc[p].state == ZOMBIE {
            Wakeup1(OfProc(initproc));
          }
        }
        p := p + 1;
      }
      proc[cur] := proc[cur].(state := ZOMBIE);
      ok := true;
    }

    /** wait, up to where it sleeps: reap the first zombie child and return its pid, return -1 where there is no child
        or the caller has been killed, else go to sleep on itself, which `r` == -2 stands for. */
    method Wait(cur: nat) returns (r: int, ghost child: nat)
      requires proc.Length == NPROC && cur < NPROC
      modifies proc
      ensures r >= 0 ==>
                child < NPROC && ZombieChild(old(Abs())[child], cur) &&
                NoneBefore(old(Abs()), child, (e: Proc) => ZombieChild(e, cur))
      ensures r >= 0 ==> r == old(Abs())[child].pid && Abs() == old(Abs())[child := Reaped(old(Abs())[child])]
      ensures r >= 0 <==> HasZombie(old(Abs()), cur)
      ensures r == -1 ==> Abs() == old(Abs())
      ensures r == -1 <==> !HasZombie(old(Abs()), cur) && (old(Abs())[cur].killed || !HasChild(old(Abs()), cur))
      ensures r == -2 ==> Abs() == old(Abs())[cur := old(Abs())[cur].(chan := OfProc(cur), state := SLEEPING)]
      ensures -2 <= r
      ensures forall s: Sys :: s.t == old(Abs()) && Ready(s, cur) ==>
                if r >= 0 then Enabled(s, Reap(cur, child)) && Apply(s, Reap(cur, child)).t == Abs()
                else forall q: nat :: !Enabled(s, Reap(cur, q))
      ensures forall s: Sys, c: nat :: s.t == old(Abs()) && Ready(s, cur) && Runs(s, cur, c) ==>
                Enabled(s, WaitSleep(cur, c)) == (r == -2) && (r == -2 ==> Apply(s, WaitSleep(cur, c)).t == Abs())
    {
      var havekids, p := false, 0;
      child := 0;
      while p < NPROC
        invariant p <= NPROC && Abs() == old(Abs()) && NoneBefore(Abs(), p, (e: Proc) => ZombieChild(e, cur))
        invariant havekids <==> !NoneBefore(Abs(), p, (e: Proc) => ChildOf(e, cur))
        modifies {}
      {
        if proc[p].parent == cur {
          havekids := true;
          if proc[p].state == ZOMBIE {
            break;
          }
        }
        p := p + 1;
      }
      if p < NPROC {
        r, child := proc[p].pid, p;
        proc[p] := proc[p].(pid := 0, parent := -1, killed := false, state := UNUSED);
        return;
      }
      if !havekids || proc[cur].killed {
        return -1, 0;
      }
      proc[cur] := proc[cur].(chan := OfProc(cur), state := SLEEPING);
      r := -2;
    }

    method Kill(pid: nat) returns (r: int, ghost at: nat)
      requires proc.Length == NPROC
      modifies proc
      ensures r == -1 || r == 0
      ensures r == -1 ==> Abs() == old(Abs()) && NoneBefore(old(Abs()), NPROC, (e: Proc) => e.pid == pid)
      ensures r == 0 ==>
                at < NPROC && old(Abs())[at].pid == pid && NoneBefore(old(Abs()), at, (e: Proc) => e.pid == pid)
      ensures r == 0 ==> Abs() == old(Abs())[at := Killed(old(Abs())[at])]
      ensures r == 0 ==> proc[at].killed && proc[at].state != SLEEPING
      ensures r == 0 ==> forall s: Sys :: s.t == old(Abs()) ==> Apply(s, Action.Kill(at)).t == Abs()
    {
      var p := 0;
      at := 0;
      while p < NPROC
        invariant p <= NPROC && Abs() == old(Abs()) && NoneBefore(Abs(), p, (e: Proc) => e.pid == pid)
        modifies {}
      {
        if proc[p].pid == pid {
          break;
        }
        p := p + 1;
      }
      if p == NPROC {
        return -1, 0;
      }
      proc[p] := proc[p].(killed := true);
      if proc[p].state == SLEEPING {
        proc[p] := proc[p].(state := RUNNABLE);
      }
      r, at := 0, p;
    }

    /** The scheduler's search from slot `from` on: the next runnable process, now running, or -1. */
    method Pick(from: nat) returns (r: int)
      requires proc.Length == NPROC && from <= NPROC
      modifies proc
      ensures r == -1 || from <= r < NPROC
      ensures forall j: nat :: from <= j < (if r < 0 then NPROC else r) ==> old(Abs())[j].state != RUNNABLE
      ensures r < 0 ==> Abs() == old(Abs())
      ensures r >= 0 ==> old(Abs())[r].state == RUNNABLE && Abs() == old(Abs())[r := old(Abs())[r].(state := RUNNING)]
      ensures forall s: Sys, c: nat :: s.t == old(Abs()) && r >= 0 && c < |s.cpu| && s.cpu[c] < 0 ==>
                Enabled(s, Sched(r, c)) && Apply(s, Sched(r, c)).t == Abs()[r := Abs()[r].(chan := Nothing)]
    {
      var p := from;
      while p < NPROC
        invariant from <= p <= NPROC && Abs() == old(Abs()) && forall j: nat :: from <= j < p ==>
                  Abs()[j].state != RUNNABLE
        modifies {}
      {
        if proc[p].state == RUNNABLE {
          break;
        }
        p := p + 1;
      }
      if p == NPROC {
        return -1;
      }
      proc[p] := proc[p].(state := RUNNING);
      r := p;
    }
  }
}
