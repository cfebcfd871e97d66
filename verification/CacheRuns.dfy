/** The buffer cache under any interleaving of processes. Each step is one critical section of bio.c, one disk
    transfer, or one change a process makes to the buffer it holds. */
module CacheRuns {
  import opened Basics
  import opened Blocks
  import opened BufferCache

  /** Where a process is between bread and the end of brelse, with its buffer and the block it asked for. */
  datatype Pc =
    | Got(i: nat, dev: nat, b: nat)    // bget has taken a reference
    | Locked(i: nat, dev: nat, b: nat) // bget has returned the locked buffer
    | Has(i: nat, dev: nat, b: nat)    // bread has returned
    | Left(i: nat, dev: nat, b: nat)   // brelse has released the sleeplock

  /** `last` is the contents last given to each block; `stamp` the time each buffer last moved to the list front. */
  datatype State = State(st: Store, pcs: map<nat, Pc>, last: seq<Block>, stamp: seq<int>, clock: int)

  datatype Step =
    | Get(p: nat, dev: nat, b: nat, i: nat)
    | Lock(p: nat)
    | Fill(p: nat)
    | LogWrite(p: nat, d: Block)
    | Bwrite(p: nat, d: Block)
    | Unlock(p: nat)
    | Put(p: nat)

  predicate Holding(pc: Pc) {
    pc.Locked? || pc.Has?
  }

  ghost predicate Init(s: State, zero: Block) {
    s.st.bufs == seq(NBUF, i => Entry(false, false, 0, 0, 0, false, zero)) &&
    s.st.order == seq(NBUF, k requires 0 <= k < NBUF => NBUF - 1 - k) &&
    s.pcs == map[] && s.last == s.st.disk && s.stamp == seq(NBUF, i => i) && s.clock == NBUF
  }

  ghost predicate Next(s: State, step: Step, s': State) {
    Shape(s.st) && (!step.Get? ==> step.p in s.pcs && s.pcs[step.p].i < NBUF) &&
    match step
    case Get(p, dev, b, i) =>
      p !in s.pcs && GetStep(s.st, dev, b, s'.st, i) &&
      s' == s.(st := s'.st, pcs := s.pcs[p := Got(i, dev, b)])
    case Lock(p) =>
      var pc := s.pcs[p];
      pc.Got? && !s.st.bufs[pc.i].locked &&
      s' == s.(st := WithEntry(s.st, pc.i, s.st.bufs[pc.i].(locked := true)),
               pcs := s.pcs[p := Locked(pc.i, pc.dev, pc.b)])
    case Fill(p) =>
      var pc := s.pcs[p];
      pc.Locked? && (!s.st.bufs[pc.i].valid ==> !IdePanics(s.st.bufs[pc.i], |s.st.disk|)) &&
      s' == s.(st := if s.st.bufs[pc.i].valid then s.st else IdeStep(s.st, pc.i),
               pcs := s.pcs[p := Has(pc.i, pc.dev, pc.b)])
    case LogWrite(p, d) =>
      var pc := s.pcs[p];
      pc.Has? && pc.b < |s.last| &&
      s' == s.(st := WithEntry(s.st, pc.i, s.st.bufs[pc.i].(data := d, dirty := true)), last := s.last[pc.b := d])
    case Bwrite(p, d) =>
      var pc := s.pcs[p];
      pc.Has? && pc.b < |s.last| && s.st.bufs[pc.i].locked && s.st.bufs[pc.i].dev == DISK &&
      s.st.bufs[pc.i].blockno < |s.st.disk| &&
      s' == s.(st := BwriteStep(s.st, pc.i, d), last := s.last[pc.b := d])
    case Unlock(p) =>
      var pc := s.pcs[p];
      pc.Has? &&
      s' == s.(st := WithEntry(s.st, pc.i, s.st.bufs[pc.i].(locked := false)),
               pcs := s.pcs[p := Left(pc.i, pc.dev, pc.b)])
    case Put(p) =>
      var pc := s.pcs[p];
      pc.Left? && s.st.bufs[pc.i].refcnt > 0 && pc.i < |s.stamp| &&
      var front := s.st.bufs[pc.i].refcnt == 1;
      s' == s.(st := PutStep(s.st, pc.i), pcs := s.pcs - {p},
               stamp := if front then s.stamp[pc.i := s.clock] else s.stamp,
               clock := if front then s.clock + 1 else s.clock)
  }

  // ---------------------------------------------------------------- the invariant

  function Users(pcs: map<nat, Pc>, i: nat): set<nat> {
    set p | p in pcs && pcs[p].i == i
  }

  /** Buffers agree with the last contents given; so does the disk wherever no buffer is pinned. */
  ghost predicate DataInv(s: State)
    requires Shape(s.st)
  {
    |s.last| == |s.st.disk| &&
    (forall i :: 0 <= i < NBUF ==> var e := s.st.bufs[i];
      (e.dirty ==> e.valid) && (e.valid ==> e.dev == DISK && e.blockno < |s.last| && e.data == s.last[e.blockno])) &&
    forall b :: 0 <= b < |s.last| && !Pinned(s.st, b) ==> s.st.disk[b] == s.last[b]
  }

  /** The reference count counts the processes that have the buffer. */
  ghost predicate RefInv(bufs: seq<Entry>, pcs: map<nat, Pc>)
    requires |bufs| == NBUF
  {
    forall i :: 0 <= i < NBUF ==> bufs[i].refcnt == |Users(pcs, i)|
  }

  /** The buffer still holds the block this process asked for, and is locked if this process holds it. */
  ghost predicate TagOk(bufs: seq<Entry>, pc: Pc) {
    pc.i < |bufs| && Matches(bufs[pc.i], pc.dev, pc.b) && (pc.Has? ==> bufs[pc.i].valid) &&
    (Holding(pc) ==> bufs[pc.i].locked)
  }

  /** No two processes hold one buffer. */
  ghost predicate Alone(pcs: map<nat, Pc>) {
    forall p, q :: p in pcs && q in pcs && p != q && Holding(pcs[p]) && Holding(pcs[q]) ==> pcs[p].i != pcs[q].i
  }

  ghost predicate UseInv(s: State)
    requires Shape(s.st)
  {
    RefInv(s.st.bufs, s.pcs) && Alone(s.pcs) && forall p :: p in s.pcs ==> TagOk(s.st.bufs, s.pcs[p])
  }

  /** The list runs from the buffer released last to the one released longest ago. */
  ghost predicate ListInv(s: State)
    requires Shape(s.st)
  {
    |s.stamp| == NBUF && (forall i :: 0 <= i < NBUF ==> s.stamp[i] < s.clock) &&
    forall j, k :: 0 <= j < k < NBUF ==> s.stamp[s.st.order[j]] > s.stamp[s.st.order[k]]
  }

  ghost predicate Inv(s: State) {
    Shape(s.st) && Unique(s.st.bufs) && DataInv(s) && UseInv(s) && ListInv(s)
  }

  lemma InvInit(s: State, zero: Block)
    requires Init(s, zero)
    ensures Inv(s)
  {
    forall i: nat | i < NBUF
      ensures i in s.st.order && Users(s.pcs, i) == {}
    {
      assert s.st.order[NBUF - 1 - i] == i;
    }
  }

  lemma GetKeeps(s: State, p: nat, dev: nat, b: nat, i: nat, s': State)
    requires Inv(s) && Next(s, Get(p, dev, b, i), s')
    ensures Inv(s')
  {
    GetUse(s, p, dev, b, i, s');
    GetData(s, p, dev, b, i, s');
    forall j, k | 0 <= j < k < NBUF && s'.st.bufs[j].dev != 0
      ensures !Matches(s'.st.bufs[k], s'.st.bufs[j].dev, s'.st.bufs[j].blockno)
    {
      assert !Matches(s.st.bufs[k], s.st.bufs[j].dev, s.st.bufs[j].blockno) || s.st.bufs[j].dev == 0;
    }
  }

  lemma UsersAdd(pcs: map<nat, Pc>, p: nat, pc: Pc, j: nat)
    requires p !in pcs
    ensures Users(pcs[p := pc], j) == Users(pcs, j) + (if j == pc.i then {p} else {}) && p !in Users(pcs, j)
  {
  }

  lemma UsersMove(pcs: map<nat, Pc>, p: nat, pc: Pc, j: nat)
    requires p in pcs && pcs[p].i == pc.i
    ensures Users(pcs[p := pc], j) == Users(pcs, j)
  {
  }

  lemma UsersRemove(pcs: map<nat, Pc>, p: nat, j: nat)
    requires p in pcs
    ensures Users(pcs - {p}, j) == Users(pcs, j) - {p} && (p in Users(pcs, j) <==> j == pcs[p].i)
  {
  }

  lemma GetUse(s: State, p: nat, dev: nat, b: nat, i: nat, s': State)
    requires Inv(s) && Next(s, Get(p, dev, b, i), s')
    ensures Shape(s'.st) && UseInv(s')
  {
    hide Unique, DataInv, ListInv, Permutation, Victim;
    forall j | 0 <= j < NBUF
      ensures s'.st.bufs[j].refcnt == |Users(s'.pcs, j)|
    {
      UsersAdd(s.pcs, p, Got(i, dev, b), j);
      if j == i && !Cached(s.st, dev, b) {
        VictimFree(s.st, i);
        assert |Users(s.pcs, i)| == 0;
      }
    }
    forall q | q in s.pcs
      ensures TagOk(s'.st.bufs, s.pcs[q])
    {
      assert TagOk(s.st.bufs, s.pcs[q]);
      if !Cached(s.st, dev, b) {
        VictimFree(s.st, i);
        assert s.pcs[q].i == i ==> q in Users(s.pcs, i);
      }
    }
  }

  lemma VictimFree(st: Store, i: nat)
    requires Shape(st) && i < NBUF && Victim(st, i)
    ensures Free(st.bufs[i])
  {
  }

  lemma GetData(s: State, p: nat, dev: nat, b: nat, i: nat, s': State)
    requires Inv(s) && Next(s, Get(p, dev, b, i), s')
    ensures DataInv(s')
  {
    forall x
      ensures Pinned(s'.st, x) <==> Pinned(s.st, x)
    {
      if j :| 0 <= j < NBUF && s.st.bufs[j].dirty && s.st.bufs[j].blockno == x {
        assert s'.st.bufs[j].dirty && s'.st.bufs[j].blockno == x;
      }
    }
  }

  /** A process moves on to `pc` with its buffer, whose entry becomes `e`. */
  lemma UseKeeps(s: State, p: nat, pc: Pc, e: Entry, s': State)
    requires Shape(s.st) && UseInv(s) && p in s.pcs && pc.i == s.pcs[p].i && TagOk(s.st.bufs[pc.i := e], pc)
    requires Shape(s'.st) && s'.st.bufs == s.st.bufs[pc.i := e] && s'.pcs == s.pcs[p := pc]
    requires var was := s.st.bufs[pc.i];
             e.refcnt == was.refcnt && e.dev == was.dev && e.blockno == was.blockno && (was.valid ==> e.valid) &&
             (Holding(pc) ==> Holding(s.pcs[p]) || !was.locked) && (was.locked && !e.locked ==> Holding(s.pcs[p]))
    ensures UseInv(s')
  {
    hide Permutation;
    forall j | 0 <= j < NBUF
      ensures s'.st.bufs[j].refcnt == |Users(s'.pcs, j)|
    {
      UsersMove(s.pcs, p, pc, j);
    }
    forall q | q in s'.pcs
      ensures TagOk(s'.st.bufs, s'.pcs[q])
    {
      assert TagOk(s.st.bufs, s.pcs[q]);
    }
  }

  lemma DirtyKeeps(s: State, i: nat, e: Entry, s': State)
    requires Inv(s) && i < NBUF && s'.st.bufs == s.st.bufs[i := e] && e.dirty == s.st.bufs[i].dirty &&
             e.blockno == s.st.bufs[i].blockno
    ensures forall x :: Pinned(s'.st, x) <==> Pinned(s.st, x)
  {
    forall x
      ensures Pinned(s'.st, x) <==> Pinned(s.st, x)
    {
      if j :| 0 <= j < NBUF && s.st.bufs[j].dirty && s.st.bufs[j].blockno == x {
        assert s'.st.bufs[j].dirty && s'.st.bufs[j].blockno == x;
      }
    }
  }

  lemma LockKeeps(s: State, step: Step, s': State)
    requires Inv(s) && (step.Lock? || step.Unlock?) && Next(s, step, s')
    ensures Inv(s')
  {
    var i := s.pcs[step.p].i;
    UseKeeps(s, step.p, s'.pcs[step.p], s'.st.bufs[i], s');
    DirtyKeeps(s, i, s'.st.bufs[i], s');
  }

  lemma FillKeeps(s: State, p: nat, s': State)
    requires Inv(s) && Next(s, Fill(p), s')
    ensures Inv(s')
  {
    var i := s.pcs[p].i;
    UseKeeps(s, p, s'.pcs[p], s'.st.bufs[i], s');
    DirtyKeeps(s, i, s'.st.bufs[i], s');
    if !s.st.bufs[i].valid {
      var b := s.st.bufs[i].blockno;
      assert !Pinned(s.st, b);
    }
  }

  lemma LogWriteKeeps(s: State, p: nat, d: Block, s': State)
    requires Inv(s) && Next(s, LogWrite(p, d), s')
    ensures Inv(s')
  {
    var i := s.pcs[p].i;
    UseKeeps(s, p, s'.pcs[p], s'.st.bufs[i], s');
    assert s'.pcs == s.pcs;
    forall x | Pinned(s.st, x) || x == s.pcs[p].b
      ensures Pinned(s'.st, x)
    {
      var j := if x == s.pcs[p].b then i else Pin(s.st, x);
      assert s'.st.bufs[j].dirty && s'.st.bufs[j].blockno == x;
    }
  }

  lemma BwriteKeepsInv(s: State, p: nat, d: Block, s': State)
    requires Inv(s) && Next(s, Bwrite(p, d), s')
    ensures Inv(s')
  {
    var i := s.pcs[p].i;
    UseKeeps(s, p, s'.pcs[p], s'.st.bufs[i], s');
    forall x | Pinned(s.st, x) && x != s.pcs[p].b
      ensures Pinned(s'.st, x)
    {
      var j := Pin(s.st, x);
      assert s'.st.bufs[j].dirty && s'.st.bufs[j].blockno == x;
    }
  }

  lemma PutRefs(bufs: seq<Entry>, pcs: map<nat, Pc>, p: nat, e: Entry)
    requires |bufs| == NBUF && RefInv(bufs, pcs) && p in pcs && pcs[p].i < NBUF && e.refcnt == bufs[pcs[p].i].refcnt - 1
    ensures RefInv(bufs[pcs[p].i := e], pcs - {p})
  {
    forall j | 0 <= j < NBUF
      ensures bufs[pcs[p].i := e][j].refcnt == |Users(pcs - {p}, j)|
    {
      UsersRemove(pcs, p, j);
    }
  }

  lemma PutUse(s: State, p: nat, s': State)
    requires Inv(s) && Next(s, Put(p), s')
    ensures Shape(s'.st) && UseInv(s')
  {
    hide Unique, DataInv, ListInv, Permutation, MoveToFront, RefInv, GetStep, IdeStep, BwriteStep;
    var i := s.pcs[p].i;
    MoveToFrontPermutes(s.st.order, i);
    PutRefs(s.st.bufs, s.pcs, p, s'.st.bufs[i]);
    assert s'.st.bufs == s.st.bufs[i := s'.st.bufs[i]];
    forall q | q in s'.pcs
      ensures TagOk(s'.st.bufs, s'.pcs[q])
    {
      assert TagOk(s.st.bufs, s.pcs[q]);
    }
  }

  lemma PutList(s: State, p: nat, s': State)
    requires Inv(s) && Next(s, Put(p), s')
    ensures Shape(s'.st) && ListInv(s')
  {
    hide Unique, DataInv, UseInv;
    MoveToFrontPermutes(s.st.order, s.pcs[p].i);
  }

  lemma PutKeeps(s: State, p: nat, s': State)
    requires Inv(s) && Next(s, Put(p), s')
    ensures Inv(s')
  {
    PutUse(s, p, s');
    PutList(s, p, s');
    hide UseInv, ListInv, MoveToFront, Permutation;
    var i := s.pcs[p].i;
    DirtyKeeps(s, i, s'.st.bufs[i], s');
  }

  lemma InvNext(s: State, step: Step, s': State)
    requires Inv(s) && Next(s, step, s')
    ensures Inv(s')
  {
    match step
    case Get(p, dev, b, i) => GetKeeps(s, p, dev, b, i, s');
    case Lock(p) => LockKeeps(s, step, s');
    case Fill(p) => FillKeeps(s, p, s');
    case LogWrite(p, d) => LogWriteKeeps(s, p, d, s');
    case Bwrite(p, d) => BwriteKeepsInv(s, p, d, s');
    case Unlock(p) => LockKeeps(s, step, s');
    case Put(p) => PutKeeps(s, p, s');
  }

  // ---------------------------------------------------------------- runs

  ghost predicate Follows(states: seq<State>, steps: seq<Step>) {
    |states| == |steps| + 1 && forall k :: 0 <= k < |steps| ==> Next(states[k], steps[k], states[k + 1])
  }

  ghost predicate IsRun(states: seq<State>, steps: seq<Step>, zero: Block) {
    Follows(states, steps) && Init(states[0], zero)
  }

  lemma {:induction false} RunInv(states: seq<State>, steps: seq<Step>, zero: Block, k: nat)
    requires IsRun(states, steps, zero) && k < |states|
    ensures Inv(states[k])
  {
    hide Inv;
    if k == 0 {
      InvInit(states[0], zero);
    } else {
      RunInv(states, steps, zero, k - 1);
      InvNext(states[k - 1], steps[k - 1], states[k]);
    }
  }

  /** Whoever bread has returned to holds the last contents given to the block, alone. */
  lemma BreadReturnsLast(states: seq<State>, steps: seq<Step>, zero: Block, k: nat, p: nat)
    requires IsRun(states, steps, zero) && k < |states| && p in states[k].pcs && states[k].pcs[p].Has?
    ensures var s, pc := states[k], states[k].pcs[p];
            pc.i < |s.st.bufs| && pc.dev == DISK && pc.b < |s.last| && s.st.bufs[pc.i].data == s.last[pc.b] &&
            forall q :: q in s.pcs && q != p && Holding(s.pcs[q]) ==> s.pcs[q].dev != DISK || s.pcs[q].b != pc.b
  {
    RunInv(states, steps, zero, k);
    var s, pc := states[k], states[k].pcs[p];
    assert TagOk(s.st.bufs, pc);
    forall q | q in s.pcs && q != p && Holding(s.pcs[q])
      ensures s.pcs[q].dev != DISK || s.pcs[q].b != pc.b
    {
      assert TagOk(s.st.bufs, s.pcs[q]) && s.pcs[q].i != pc.i;
    }
  }

  /** At most one buffer per block of a real device, and the list is always all the buffers, once each. */
  lemma OneBufferPerBlock(states: seq<State>, steps: seq<Step>, zero: Block, k: nat)
    requires IsRun(states, steps, zero) && k < |states|
    ensures Permutation(states[k].st.order) && Unique(states[k].st.bufs)
  {
    RunInv(states, steps, zero, k);
  }

  /** A buffer is recycled only when no process refers to it and the log does not pin it, and it is the one of
      those released longest ago; its last contents are on the disk. */
  lemma RecyclesOldest(states: seq<State>, steps: seq<Step>, zero: Block, k: nat)
    requires IsRun(states, steps, zero) && k < |steps| && steps[k].Get?
    requires |states[k].st.bufs| == NBUF && !Cached(states[k].st, steps[k].dev, steps[k].b)
    ensures var s, i := states[k], steps[k].i;
            i < NBUF && |s.stamp| == NBUF && Free(s.st.bufs[i]) && Users(s.pcs, i) == {} &&
            (forall j :: 0 <= j < NBUF && Free(s.st.bufs[j]) ==> s.stamp[i] <= s.stamp[j]) &&
            var b := s.st.bufs[i].blockno;
            s.st.bufs[i].valid ==> b < |s.st.disk| == |s.last| && s.st.disk[b] == s.last[b]
  {
    RunInv(states, steps, zero, k);
    var s, i := states[k], steps[k].i;
    assert Next(s, steps[k], states[k + 1]);
    assert |Users(s.pcs, i)| == 0;
    forall j: nat | j < NBUF && Free(s.st.bufs[j])
      ensures s.stamp[i] <= s.stamp[j]
    {
      var at :| 0 <= at < NBUF && s.st.order[at] == i && forall x: nat :: at < x < NBUF ==>
        !Free(s.st.bufs[s.st.order[x]]);
      assert s.st.order[Position(s.st.order, j)] == j;
    }
    assert s.st.bufs[i].valid ==> !Pinned(s.st, s.st.bufs[i].blockno);
  }
}
