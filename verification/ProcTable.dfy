/** The process table of proc.c: what each scan of it does, as a function of the table. */
module ProcTable {
  const NPROC: nat := 64

  datatype PState = UNUSED | EMBRYO | SLEEPING | RUNNABLE | RUNNING | ZOMBIE

  /** What a process sleeps on: nothing, a process (only its own, in wait), or some other object. */
  datatype Chan = Nothing | OfProc(p: nat) | Other(a: nat)

  /** A slot; parent is the index of another slot or -1. */
  datatype Proc = Proc(state: PState, pid: nat, parent: int, chan: Chan, killed: bool)

  type Table = t: seq<Proc> | |t| == NPROC witness seq(NPROC, i => Proc(UNUSED, 0, -1, Nothing, false))

  function ChanOf(p: int): Chan {
    if p < 0 then Nothing else OfProc(p)
  }

  function Wake(e: Proc, chan: Chan): Proc {
    if e.state == SLEEPING && e.chan == chan then e.(state := RUNNABLE) else e
  }

  /** wakeup1: everyone sleeping on chan becomes runnable. */
  function Woken(t: Table, chan: Chan): Table {
    seq(NPROC, q requires 0 <= q < NPROC => Wake(t[q], chan))
  }

  predicate ZombieChild(e: Proc, p: nat) {
    e.parent == p && e.state == ZOMBIE
  }

  predicate HasZombie(t: Table, p: nat) {
    exists j: nat :: j < NPROC && ZombieChild(t[j], p)
  }

  predicate ChildOf(e: Proc, p: nat) {
    e.parent == p
  }

  predicate HasChild(t: Table, p: nat) {
    exists j: nat :: j < NPROC && ChildOf(t[j], p)
  }

  /** exit's loop before slot k: children so far go to init, which is woken if one of them is a zombie. */
  function Passed(t: Table, cur: nat, init: nat, k: nat): Table
    requires k <= NPROC
  {
    seq(NPROC, q requires 0 <= q < NPROC =>
      var e := if q < k && t[q].parent == cur then t[q].(parent := init) else t[q];
      if exists j: nat :: j < k && ZombieChild(t[j], cur) then Wake(e, OfProc(init)) else e)
  }

  /** exit: wake the parent, pass the children to init, become a zombie. */
  function Exited(t: Table, cur: nat, init: nat): Table
    requires cur < NPROC
  {
    var t' := Passed(Woken(t, ChanOf(t[cur].parent)), cur, init, NPROC);
    t'[cur := t'[cur].(state := ZOMBIE)]
  }

  predicate NoneBefore(t: Table, k: nat, f: Proc -> bool)
    requires k <= NPROC
  {
    forall j: nat :: j < k ==> !f(t[j])
  }

  /** The slot of wait's scan after it has been given up by its zombie. */
  function Reaped(e: Proc): Proc {
    Proc(UNUSED, 0, -1, e.chan, false)
  }

  function Killed(e: Proc): Proc {
    e.(killed := true, state := if e.state == SLEEPING then RUNNABLE else e.state)
  }

  /** What one turn of exit's loop adds. */
  lemma PassedNext(t: Table, cur: nat, init: nat, k: nat)
    requires k < NPROC
    ensures var a := Passed(t, cur, init, k);
            var b := a[k := if a[k].parent == cur then a[k].(parent := init) else a[k]];
            (a[k].parent == cur <==> t[k].parent == cur) && (a[k].state == ZOMBIE <==> t[k].state == ZOMBIE) &&
            Passed(t, cur, init, k + 1) == if ZombieChild(t[k], cur) then Woken(b, OfProc(init)) else b
  {
  }

  /** exit slot by slot: who is woken, who gets a new parent, who becomes a zombie. */
  lemma ExitedSlot(t: Table, cur: nat, init: nat, q: nat)
    requires cur < NPROC && q < NPROC
    ensures var e := Exited(t, cur, init)[q];
            e.pid == t[q].pid && e.chan == t[q].chan && e.killed == t[q].killed &&
            e.parent == (if t[q].parent == cur then init else t[q].parent) &&
            e.state == (if q == cur then ZOMBIE
                        else if t[q].state == SLEEPING &&
                          (t[q].chan == ChanOf(t[cur].parent) || (t[q].chan == OfProc(init) && HasZombie(t, cur)))
                        then RUNNABLE else t[q].state)
  {
    var t1 := Woken(t, ChanOf(t[cur].parent));
    assert forall j: nat :: j < NPROC ==> (ZombieChild(t1[j], cur) <==> ZombieChild(t[j], cur));
    assert HasZombie(t1, cur) <==> HasZombie(t, cur);
  }
}
