/** A run of the buffer cache after which commit() cannot go on: as many blocks pinned as log_write accepts on the
    image mkfs makes, and one reader. */
module CommitStarves {
  import opened Basics
  import opened Blocks
  import opened BufferCache
  import opened CacheRuns
  import opened LogBuffers

  const PINS: nat := 29 // log.size - 1, where mkfs makes log.size LOGSIZE

  /** The n blocks from `first` on are pinned, the other buffers are as binit left them, and nobody is about. */
  ghost predicate Filled(s: State, first: nat, n: nat) {
    Inv(s) && s.pcs == map[] && |PinnedBufs(s.st)| == n &&
    forall i :: 0 <= i < NBUF ==>
      var e := s.st.bufs[i];
      e.refcnt == 0 && !e.locked &&
      if e.dirty then e.dev == DISK && first <= e.blockno < first + n else e.dev == 0 && !e.valid
  }

  /** Where one of the first k buffers of the list is free and none of the others, one is the free buffer nearest
      the tail. */
  lemma {:induction false} VictimFrom(st: Store, k: nat) returns (i: nat)
    requires Shape(st) && k <= NBUF && exists j: nat :: j < k && Free(st.bufs[st.order[j]])
    requires forall j: nat :: k <= j < NBUF ==> !Free(st.bufs[st.order[j]])
    ensures i < NBUF && Victim(st, i)
  {
    if Free(st.bufs[st.order[k - 1]]) {
      i := st.order[k - 1];
    } else {
      i := VictimFrom(st, k - 1);
    }
  }

  /** A block that is not cached is given a buffer. */
  lemma GetFree(s: State, b: nat) returns (s1: State, i: nat)
    requires Inv(s) && s.pcs == map[] && !Cached(s.st, DISK, b) && HasFree(s.st)
    ensures i < NBUF && Free(s.st.bufs[i]) && Next(s, Get(0, DISK, b, i), s1) && Inv(s1)
    ensures var e := s.st.bufs[i].(dev := DISK, blockno := b, valid := false, refcnt := 1);
            s1 == s.(st := WithEntry(s.st, i, e), pcs := map[0 := Got(i, DISK, b)])
  {
    var f: nat :| f < |s.st.bufs| && Free(s.st.bufs[f]);
    assert s.st.order[Position(s.st.order, f)] == f;
    i := VictimFrom(s.st, NBUF);
    VictimFree(s.st, i);
    var e := s.st.bufs[i].(dev := DISK, blockno := b, valid := false, refcnt := 1);
    s1 := s.(st := WithEntry(s.st, i, e), pcs := s.pcs[0 := Got(i, DISK, b)]);
    InvNext(s, Get(0, DISK, b, i), s1);
  }

  /** bread of a block that is not cached. */
  lemma BreadFree(s: State, b: nat) returns (states: seq<State>, steps: seq<Step>, i: nat)
    requires Inv(s) && s.pcs == map[] && !Cached(s.st, DISK, b) && HasFree(s.st) && b < |s.st.disk|
    requires forall j :: 0 <= j < NBUF ==> !s.st.bufs[j].locked
    ensures Follows(states, steps) && |steps| == 3 && states[0] == s && Inv(states[3])
    ensures i < NBUF && Free(s.st.bufs[i])
    ensures states[3] == s.(st := WithEntry(s.st, i, Entry(true, false, DISK, b, 1, true, s.st.disk[b])),
                            pcs := map[0 := Has(i, DISK, b)])
  {
    hide Inv, Cached, HasFree, GetStep;
    var s1;
    InvParts(s);
    s1, i := GetFree(s, b);
    var e1 := s1.st.bufs[i];
    var e2 := e1.(locked := true);
    var s2 := s1.(st := WithEntry(s1.st, i, e2), pcs := map[0 := Locked(i, DISK, b)]);
    InvParts(s1);
    assert Next(s1, Lock(0), s2);
    InvNext(s1, Lock(0), s2);
    InvParts(s2);
    var s3 := s2.(st := IdeStep(s2.st, i), pcs := map[0 := Has(i, DISK, b)]);
    assert Next(s2, Fill(0), s3);
    InvNext(s2, Fill(0), s3);
    assert s3.st.bufs == s.st.bufs[i := Entry(true, false, DISK, b, 1, true, s.st.disk[b])];
    states, steps := [s, s1, s2, s3], [Get(0, DISK, b, i), Lock(0), Fill(0)];
  }

  lemma InvParts(s: State)
    requires Inv(s)
    ensures Shape(s.st) && |s.last| == |s.st.disk| && |s.stamp| == NBUF
  {
  }

  /** log_write and brelse by the only process about. */
  lemma LogAndRelease(s: State, i: nat, b: nat, d: Block) returns (states: seq<State>, steps: seq<Step>)
    requires Inv(s) && i < NBUF && s.pcs == map[0 := Has(i, DISK, b)] && b < |s.st.disk| && s.st.bufs[i].refcnt == 1
    ensures Follows(states, steps) && |steps| == 3 && states[0] == s && Inv(states[3]) && states[3].pcs == map[]
    ensures states[3].st.disk == s.st.disk
    ensures states[3].st.bufs == s.st.bufs[i := s.st.bufs[i].(data := d, dirty := true, locked := false, refcnt := 0)]
  {
    hide Inv, MoveToFront;
    InvParts(s);
    var e := s.st.bufs[i].(data := d, dirty := true);
    var s1 := s.(st := WithEntry(s.st, i, e), last := s.last[b := d]);
    assert Next(s, LogWrite(0, d), s1);
    InvNext(s, LogWrite(0, d), s1);
    var s2 := s1.(st := WithEntry(s1.st, i, e.(locked := false)), pcs := map[0 := Left(i, DISK, b)]);
    assert Next(s1, Unlock(0), s2);
    InvNext(s1, Unlock(0), s2);
    InvParts(s2);
    var s3 := s2.(st := PutStep(s2.st, i), pcs := map[], stamp := s2.stamp[i := s2.clock], clock := s2.clock + 1);
    assert s2.pcs - {0} == map[];
    assert Next(s2, Put(0), s3);
    InvNext(s2, Put(0), s3);
    states, steps := [s, s1, s2, s3], [LogWrite(0, d), Unlock(0), Put(0)];
  }

  lemma FilledHasFree(s: State, first: nat, n: nat)
    requires Filled(s, first, n) && n < NBUF
    ensures HasFree(s.st)
  {
    BelowCard(PinnedBufs(s.st), NBUF);
    var f: nat :| f < NBUF && f !in PinnedBufs(s.st);
    assert Free(s.st.bufs[f]);
  }

  lemma PinOne(s: State, first: nat, n: nat, d: Block) returns (states: seq<State>, steps: seq<Step>)
    requires Filled(s, first, n) && n < NBUF && first + n < |s.st.disk|
    ensures Follows(states, steps) && states[0] == s && Filled(states[|steps|], first, n + 1)
    ensures states[|steps|].st.disk == s.st.disk
  {
    hide Next, GetStep, Inv;
    InvParts(s);
    FilledHasFree(s, first, n);
    var a, x, i := BreadFree(s, first + n);
    var c, y := LogAndRelease(a[3], i, first + n, d);
    states, steps := a + c[1..], x + y;
    forall k | 0 <= k < |steps|
      ensures Next(states[k], steps[k], states[k + 1])
    {
      if k >= 3 {
        assert Next(c[k - 3], y[k - 3], c[k - 2]);
      }
    }
    assert PinnedBufs(c[3].st) == PinnedBufs(s.st) + {i};
  }

  lemma {:induction false} FillRun(disk: seq<Block>, zero: Block, d: Block, first: nat, n: nat)
    returns (states: seq<State>, steps: seq<Step>)
    requires n <= NBUF && first + n <= |disk|
    ensures IsRun(states, steps, zero) && Filled(states[|steps|], first, n) && states[|steps|].st.disk == disk
  {
    hide Next, Inv, Filled;
    if n == 0 {
      var s := Booted(disk, zero);
      BootedFilled(disk, zero, first);
      states, steps := [s], [];
    } else {
      var a, x := FillRun(disk, zero, d, first, n - 1);
      var c, y := PinOne(a[|x|], first, n - 1, d);
      states, steps := a + c[1..], x + y;
      forall k | 0 <= k < |steps|
        ensures Next(states[k], steps[k], states[k + 1])
      {
        if k >= |x| {
          assert Next(c[k - |x|], y[k - |x|], c[k - |x| + 1]);
        }
      }
    }
  }

  function Booted(disk: seq<Block>, zero: Block): State {
    State(Store(seq(NBUF, i => Entry(false, false, 0, 0, 0, false, zero)),
                seq(NBUF, k requires 0 <= k < NBUF => NBUF - 1 - k), disk),
          map[], disk, seq(NBUF, i => i), NBUF)
  }

  lemma BootedFilled(disk: seq<Block>, zero: Block, first: nat)
    ensures Init(Booted(disk, zero), zero) && Filled(Booted(disk, zero), first, 0)
  {
    InvInit(Booted(disk, zero), zero);
    assert PinnedBufs(Booted(disk, zero).st) == {};
  }

  /** With PINS blocks logged, one process that has read another block is enough: no buffer is left for a block
      of the log, and bget panics under commit(). */
  lemma ReaderStarvesCommit(disk: seq<Block>, zero: Block, d: Block, first: nat, read: nat, log: nat)
    returns (states: seq<State>, steps: seq<Step>, i: nat)
    requires first + PINS <= |disk| && read < |disk| && read != log
    requires !(first <= read < first + PINS) && !(first <= log < first + PINS)
    ensures IsRun(states, steps, zero)
    ensures var s := states[|steps|];
            |s.st.bufs| == NBUF && |PinnedBufs(s.st)| == PINS && s.pcs == map[0 := Has(i, DISK, read)] &&
            forall p, j, s' :: !Next(s, Get(p, DISK, log, j), s')
  {
    hide Inv, GetStep;
    var a, x := FillRun(disk, zero, d, first, PINS);
    var s0 := a[|x|];
    InvParts(s0);
    FilledHasFree(s0, first, PINS);
    var c, y;
    c, y, i := BreadFree(s0, read);
    var s := c[3];
    AllBusy(s0, first, s, i, read, log);
    NoGet(s, log);
    states, steps := a + c[1..], x + y;
    forall k | 0 <= k < |steps|
      ensures Next(states[k], steps[k], states[k + 1])
    {
      if k >= |x| {
        assert Next(c[k - |x|], y[k - |x|], c[k - |x| + 1]);
      }
    }
  }

  lemma NoGet(s: State, log: nat)
    requires Shape(s.st) && !Cached(s.st, DISK, log) && !HasFree(s.st)
    ensures forall p, j, s' :: !Next(s, Get(p, DISK, log, j), s')
  {
  }

  lemma AllBusy(s0: State, first: nat, s: State, i: nat, read: nat, log: nat)
    requires Filled(s0, first, PINS) && i < NBUF && Free(s0.st.bufs[i]) && |s.st.bufs| == NBUF
    requires forall j :: 0 <= j < NBUF && j != i ==> s.st.bufs[j] == s0.st.bufs[j]
    requires s.st.bufs[i].dev == DISK && s.st.bufs[i].blockno == read && s.st.bufs[i].refcnt == 1 && !s.st.bufs[i].dirty
    requires read != log && !(first <= log < first + PINS)
    ensures !Cached(s.st, DISK, log) && !HasFree(s.st) && |PinnedBufs(s.st)| == PINS
  {
    hide Inv;
    InvParts(s0);
    assert PinnedBufs(s.st) == PinnedBufs(s0.st) && i !in PinnedBufs(s.st);
    BelowCard(PinnedBufs(s.st) + {i}, NBUF);
    forall j: nat | j < NBUF
      ensures !Free(s.st.bufs[j])
    {
      assert j in PinnedBufs(s.st) + {i};
    }
  }
}
