/** What the log code does to the buffers it takes from the cache, while other processes keep theirs: readers
    of fs.c hold buffers outside any transaction, during a commit too. */
module LogBuffers {
  import opened Basics
  import opened Blocks
  import opened BufferCache
  import opened LogDisk

  // ---------------------------------------------------------------- buffers in hand

  /** A buffer that was `was` is now `e`, and this code has taken it or not. Everybody else's references and
      lock are as they were, and a buffer somebody else has locked is untouched. */
  predicate Use(was: Entry, taken: bool, e: Entry) {
    e.refcnt == was.refcnt + (if taken then 1 else 0) && e.locked == (was.locked || taken) &&
    (taken ==> !was.locked && e.valid) && (was.locked ==> e == was) &&
    (was.refcnt > 0 ==> Matches(e, was.dev, was.blockno))
  }

  /** Since `st0` this code has taken exactly the buffers `mine`. */
  ghost predicate Held(st0: Store, mine: set<nat>, st: Store)
    requires |st0.bufs| == NBUF && |st.bufs| == NBUF
  {
    forall i: nat :: i < NBUF ==> Use(st0.bufs[i], i in mine, st.bufs[i])
  }

  lemma HeldTrans(st0: Store, st1: Store, mine: set<nat>, st2: Store)
    requires |st0.bufs| == NBUF && |st1.bufs| == NBUF && |st2.bufs| == NBUF
    requires Held(st0, {}, st1) && Held(st1, mine, st2)
    ensures Held(st0, mine, st2)
  {
    forall i: nat | i < NBUF
      ensures Use(st0.bufs[i], i in mine, st2.bufs[i])
    {
      assert Use(st0.bufs[i], false, st1.bufs[i]) && Use(st1.bufs[i], i in mine, st2.bufs[i]);
    }
  }

  lemma BreadHeld(st0: Store, mine: set<nat>, st: Store, blockno: nat, st': Store, i: nat)
    requires |st0.bufs| == NBUF && Coherent(st) && Held(st0, mine, st)
    requires Unlocked(st, blockno) && BreadStep(st, blockno, st', i)
    ensures i !in mine && Held(st0, mine + {i}, st')
    ensures st'.bufs[i].blockno == blockno && st'.bufs[i].data == Contents(st)[blockno]
    ensures st'.bufs[i].dirty || st'.bufs[i].data == st'.disk[blockno]
    ensures Coherent(st') && Contents(st') == Contents(st) && forall b :: Pinned(st', b) <==> Pinned(st, b)
  {
    BreadKeeps(st, blockno, st', i);
    forall j: nat | j < NBUF
      ensures Use(st0.bufs[j], j in mine + {i}, st'.bufs[j])
    {
      assert Use(st0.bufs[j], j in mine, st.bufs[j]);
    }
  }

  lemma BwriteHeld(st0: Store, mine: set<nat>, st: Store, i: nat, d: Block)
    requires |st0.bufs| == NBUF && Coherent(st) && Held(st0, mine, st) && i in mine && i < NBUF
    ensures var st' := BwriteStep(st, i, d); Held(st0, mine, st') && !st'.bufs[i].dirty && st'.bufs[i].data == d
  {
    var st' := BwriteStep(st, i, d);
    forall j: nat | j < NBUF
      ensures Use(st0.bufs[j], j in mine, st'.bufs[j])
    {
      assert Use(st0.bufs[j], j in mine, st.bufs[j]);
    }
  }

  lemma BrelseHeld(st0: Store, mine: set<nat>, st: Store, i: nat)
    requires |st0.bufs| == NBUF && Coherent(st) && Held(st0, mine, st) && i in mine && i < NBUF
    ensures var st' := BrelseStep(st, i);
            Held(st0, mine - {i}, st') && st'.bufs[i].dirty == st.bufs[i].dirty &&
            forall j :: 0 <= j < NBUF && j != i ==> st'.bufs[j] == st.bufs[j]
  {
    var st' := BrelseStep(st, i);
    forall j: nat | j < NBUF
      ensures Use(st0.bufs[j], j in mine - {i}, st'.bufs[j])
    {
      assert Use(st0.bufs[j], j in mine, st.bufs[j]);
    }
  }

  /** Nobody else has locked the block, so nobody has when this code holds other blocks only. */
  lemma StillUnlocked(st0: Store, mine: set<nat>, st: Store, b: nat)
    requires |st0.bufs| == NBUF && |st.bufs| == NBUF && Held(st0, mine, st) && Unlocked(st0, b)
    requires forall i :: i in mine && i < NBUF ==> st.bufs[i].blockno != b
    ensures Unlocked(st, b)
  {
    forall i | 0 <= i < NBUF && Matches(st.bufs[i], DISK, b)
      ensures !st.bufs[i].locked
    {
      assert Use(st0.bufs[i], i in mine, st.bufs[i]);
    }
  }

  // ---------------------------------------------------------------- who occupies the buffers

  /** The buffers the log has pinned. */
  ghost function PinnedBufs(st: Store): set<nat>
    requires |st.bufs| == NBUF
  {
    set i: nat | i < NBUF && st.bufs[i].dirty
  }

  /** The other buffers somebody refers to. */
  ghost function Readers(st: Store): set<nat>
    requires |st.bufs| == NBUF
  {
    set i: nat | i < NBUF && st.bufs[i].refcnt > 0 && !st.bufs[i].dirty
  }

  /** Each logged block pins one buffer. */
  lemma PinnedCount(st: Store, lh: seq<nat>)
    requires Coherent(st) && Distinct(lh) && forall b :: Pinned(st, b) <==> b in lh
    ensures |PinnedBufs(st)| == |lh|
  {
    var pins := seq(|lh|, k requires 0 <= k < |lh| => Pin(st, lh[k]));
    DistinctCard(pins);
    forall i: nat | i < NBUF && st.bufs[i].dirty
      ensures i in pins
    {
      assert Pinned(st, st.bufs[i].blockno);
      var k: nat :| k < |lh| && lh[k] == st.bufs[i].blockno;
      assert EntryOk(st.bufs[i], st.disk) && EntryOk(st.bufs[pins[k]], st.disk);
      assert pins[k] == i;
    }
    assert Elements(pins) == PinnedBufs(st);
  }

  /** bget has a buffer to recycle exactly when the logged blocks and the buffers in use besides are together
      fewer than NBUF. */
  lemma FreeIffFew(st: Store, lh: seq<nat>)
    requires Coherent(st) && Distinct(lh) && forall b :: Pinned(st, b) <==> b in lh
    ensures HasFree(st) <==> |lh| + |Readers(st)| < NBUF
  {
    PinnedCount(st, lh);
    var busy := PinnedBufs(st) + Readers(st);
    assert PinnedBufs(st) !! Readers(st);
    BelowCard(busy, NBUF);
    forall i: nat | i < NBUF
      ensures i in busy <==> !Free(st.bufs[i])
    {
    }
  }

  // ---------------------------------------------------------------- the cache between steps of the log code

  /** Nobody refers to a block of the log area: only the log code reads those. */
  ghost predicate NoLogUsers(st: Store, l: Layout) {
    forall i :: 0 <= i < |st.bufs| && st.bufs[i].refcnt > 0 ==>
      !(st.bufs[i].dev == DISK && InLog(l, st.bufs[i].blockno))
  }

  /** The cache when the log code has nothing in hand; others may. */
  ghost predicate Idle(st: Store, l: Layout) {
    Coherent(st) && Fits(l, st.disk) && NoLogUsers(st, l)
  }

  lemma LogUnlocked(st: Store, l: Layout, b: nat)
    requires Idle(st, l) && InLog(l, b)
    ensures Unlocked(st, b)
  {
    forall i | 0 <= i < NBUF && Matches(st.bufs[i], DISK, b)
      ensures !st.bufs[i].locked
    {
      assert EntryOk(st.bufs[i], st.disk);
    }
  }

  lemma IdleKept(st0: Store, l: Layout, st: Store)
    requires Idle(st0, l) && Coherent(st) && |st.disk| == |st0.disk| && Held(st0, {}, st)
    ensures Idle(st, l)
  {
    forall i | 0 <= i < NBUF && st.bufs[i].refcnt > 0
      ensures !(st.bufs[i].dev == DISK && InLog(l, st.bufs[i].blockno))
    {
      assert Use(st0.bufs[i], false, st.bufs[i]);
    }
  }

  /** The first log block finds a buffer exactly when the logged blocks and the readers leave one. */
  lemma CommitOk(st: Store, l: Layout, lh: seq<nat>)
    requires Idle(st, l) && GoodList(l, |st.disk|, lh) && lh != [] && forall b :: Pinned(st, b) <==> b in lh
    ensures (HasFree(st) || Cached(st, DISK, l.start + 1)) <==> |lh| + |Readers(st)| < NBUF
  {
    FreeIffFew(st, lh);
    assert !Pinned(st, l.start + 1);
    if i: nat :| i < NBUF && Matches(st.bufs[i], DISK, l.start + 1) {
      assert Free(st.bufs[i]);
    }
  }

  // ---------------------------------------------------------------- copying one block over another

  /** Copying block src over block dst, on disk and in the cache. */
  ghost predicate Copied(st: Store, src: nat, dst: nat, st': Store) {
    Coherent(st) && Coherent(st') && Held(st, {}, st') && src < |st.disk| && dst < |st.disk| &&
    var d := Contents(st)[src];
    st'.disk == st.disk[dst := d] && Contents(st') == Contents(st)[dst := d] && HasFree(st') &&
    forall b :: Pinned(st', b) <==> Pinned(st, b) && b != dst
  }

  /** Nobody refers to a buffer. */
  ghost predicate Unused(st: Store) {
    forall i :: 0 <= i < |st.bufs| ==> st.bufs[i].refcnt == 0
  }

  /** The second block of a copy needs no buffer of its own: it is pinned, or nothing is and nobody is about. */
  ghost predicate SecondSafe(st: Store, b: nat) {
    Pinned(st, b) || (Unused(st) && forall x :: !Pinned(st, x))
  }

  lemma SecondReadable(st0: Store, st: Store, i: nat, b: nat)
    requires Coherent(st0) && SecondSafe(st0, b)
    requires Coherent(st) && i < NBUF && Held(st0, {i}, st) && forall x :: Pinned(st, x) <==> Pinned(st0, x)
    ensures Cached(st, DISK, b) || HasFree(st)
  {
    if Pinned(st, b) {
      assert Matches(st.bufs[Pin(st, b)], DISK, b);
    } else {
      var k := if i == 0 then 1 else 0;
      assert !Pinned(st, st.bufs[k].blockno);
      assert Use(st0.bufs[k], false, st.bufs[k]);
      assert Free(st.bufs[k]);
    }
  }

  /** Both buffers of a copy are held, and the source may be released as it is. */
  ghost predicate CopyReady(st0: Store, st: Store, w: nat, r: nat) {
    |st0.bufs| == NBUF && w < NBUF && r < NBUF && w != r && Coherent(st) && Held(st0, {w, r}, st) &&
    (st.bufs[r].dirty || st.bufs[r].data == st.disk[st.bufs[r].blockno])
  }

  /** Blocks a and b are in hand in buffers i and j, the first in a buffer nobody else has and the log has not
      pinned, and nothing else has changed. */
  ghost predicate BothRead(st: Store, a: nat, b: nat, st': Store, i: nat, j: nat) {
    CopyReady(st, st', i, j) && CopyReady(st, st', j, i) && st'.disk == st.disk && Contents(st') == Contents(st) &&
    (forall x :: Pinned(st', x) <==> Pinned(st, x)) && a < |st.disk| && b < |st.disk| &&
    st'.bufs[i].blockno == a && st'.bufs[i].data == Contents(st)[a] &&
    st'.bufs[j].blockno == b && st'.bufs[j].data == Contents(st)[b] &&
    st'.bufs[i].refcnt == 1 && !st'.bufs[i].dirty
  }

  /** Block a is in nobody's hands and not pinned. */
  ghost predicate Spare(st: Store, a: nat) {
    Unlocked(st, a) && !Pinned(st, a) &&
    forall i :: 0 <= i < |st.bufs| && Matches(st.bufs[i], DISK, a) ==> st.bufs[i].refcnt == 0
  }

  lemma LogSpare(st: Store, l: Layout, lh: seq<nat>, b: nat)
    requires Idle(st, l) && InLog(l, b) && GoodList(l, |st.disk|, lh) && (forall x :: Pinned(st, x) ==> x in lh)
    ensures Spare(st, b)
  {
    LogUnlocked(st, l, b);
    assert b !in lh;
  }

  lemma TwoReads(st: Store, a: nat, st1: Store, i: nat, b: nat, st2: Store, j: nat)
    requires Coherent(st) && a != b && Spare(st, a) && Unlocked(st, b)
    requires BreadStep(st, a, st1, i) && Coherent(st1) && BreadStep(st1, b, st2, j)
    ensures BothRead(st, a, b, st2, i, j)
  {
    hide Contents, Permutation;
    FirstRead(st, a, st1, i, b);
    BreadHeld(st, {i}, st1, b, st2, j);
    assert {i} + {j} == {i, j} == {j, i};
    hide Pinned;
  }

  lemma FirstRead(st: Store, a: nat, st1: Store, i: nat, b: nat)
    requires Coherent(st) && a != b && Spare(st, a) && Unlocked(st, b) && BreadStep(st, a, st1, i)
    ensures Coherent(st1) && Held(st, {i}, st1) && Unlocked(st1, b) && Contents(st1) == Contents(st)
    ensures st1.disk == st.disk && forall x :: Pinned(st1, x) <==> Pinned(st, x)
    ensures st1.bufs[i].blockno == a && st1.bufs[i].refcnt == 1 && !st1.bufs[i].dirty
    ensures st1.bufs[i].data == Contents(st)[a] == st.disk[a]
  {
    hide Contents, Permutation;
    assert Held(st, {}, st);
    BreadHeld(st, {}, st, a, st1, i);
    assert {} + {i} == {i};
    StillUnlocked(st, {i}, st1, b);
    assert !Pinned(st1, a);
  }

  ghost function CopyStep(st: Store, w: nat, r: nat): Store
    requires Coherent(st) && w < NBUF && r < NBUF && w != r
    requires st.bufs[w].locked && st.bufs[w].valid && st.bufs[r].locked
  {
    MoveToFrontPermutes(st.order, r);
    BrelseStep(BrelseStep(BwriteStep(st, w, st.bufs[r].data), r), w)
  }

  lemma CopyStepCopies(st0: Store, st: Store, w: nat, r: nat)
    requires CopyReady(st0, st, w, r)
    ensures var st', d, dst := CopyStep(st, w, r), st.bufs[r].data, st.bufs[w].blockno;
            Coherent(st') && Held(st0, {}, st') &&
            (st.bufs[w].refcnt == 1 || (st.bufs[r].refcnt == 1 && !st.bufs[r].dirty) ==> HasFree(st')) &&
            st'.disk == st.disk[dst := d] && Contents(st') == Contents(st)[dst := d] &&
            forall b :: Pinned(st', b) <==> Pinned(st, b) && b != dst
  {
    hide Contents, Pinned, Use;
    var d := st.bufs[r].data;
    assert Use(st0.bufs[w], true, st.bufs[w]) && Use(st0.bufs[r], true, st.bufs[r]);
    BothTaken(st0, st, w, r);
    var st1 := BwriteStep(st, w, d);
    BwriteHeld(st0, {w, r}, st, w, d);
    BwriteKeeps(st, w, d);
    var st2 := BrelseStep(st1, r);
    BrelseHeld(st0, {w, r}, st1, r);
    BrelseKeeps(st1, r);
    assert {w, r} - {r} == {w};
    var st3 := BrelseStep(st2, w);
    BrelseHeld(st0, {w}, st2, w);
    BrelseKeeps(st2, w);
    assert {w} - {w} == {};
    if st.bufs[w].refcnt == 1 {
      assert Free(st3.bufs[w]);
    } else if st.bufs[r].refcnt == 1 && !st.bufs[r].dirty {
      assert Free(st3.bufs[r]);
    }
  }

  lemma BothTaken(st0: Store, st: Store, w: nat, r: nat)
    requires CopyReady(st0, st, w, r)
    ensures st.bufs[w].locked && st.bufs[w].valid && st.bufs[r].locked && st.bufs[r].valid
    ensures st.bufs[w].blockno != st.bufs[r].blockno
  {
    assert Use(st0.bufs[w], true, st.bufs[w]) && Use(st0.bufs[r], true, st.bufs[r]);
    assert EntryOk(st.bufs[w], st.disk) && EntryOk(st.bufs[r], st.disk);
  }

  lemma CopyMakes(st: Store, a: nat, b: nat, st': Store, i: nat, j: nat)
    requires Coherent(st) && BothRead(st, a, b, st', i, j)
    ensures st'.bufs[i].locked && st'.bufs[i].valid && st'.bufs[j].locked && st'.bufs[j].valid
    ensures Copied(st, b, a, CopyStep(st', i, j)) && Copied(st, a, b, CopyStep(st', j, i))
  {
    hide Contents, Pinned, Held, CopyStep, CopyReady, Coherent;
    assert CopyReady(st, st', i, j) && CopyReady(st, st', j, i);
    BothTaken(st, st', i, j);
    CopyStepCopies(st, st', i, j);
    CopyStepCopies(st, st', j, i);
  }

  // ---------------------------------------------------------------- the header block

  /** bread, bwrite of new contents, brelse: one block of the log area changed, its buffer left to recycle. */
  lemma Rewritten(st: Store, l: Layout, blockno: nat, st1: Store, b: nat, d: Block)
    requires Idle(st, l) && InLog(l, blockno) && BreadStep(st, blockno, st1, b)
    ensures Coherent(st1) && st1.bufs[b].valid && st1.bufs[b].locked && st1.bufs[b].blockno == blockno
    ensures st1.bufs[b].data == Contents(st)[blockno]
    ensures var st2 := BwriteStep(st1, b, d);
            Shape(st2) && st2.bufs[b].locked && st2.bufs[b].refcnt > 0 &&
            var st3 := BrelseStep(st2, b);
            Coherent(st3) && Held(st, {}, st3) && HasFree(st3) &&
            st3.disk == st.disk[blockno := d] && Contents(st3) == Contents(st)[blockno := d] &&
            forall x :: Pinned(st3, x) <==> Pinned(st, x) && x != blockno
  {
    hide Contents, Pinned, Permutation, Unique;
    LogUnlocked(st, l, blockno);
    assert Held(st, {}, st);
    BreadHeld(st, {}, st, blockno, st1, b);
    assert {} + {b} == {b};
    assert st1.bufs[b].refcnt == 1;
    BwriteHeld(st, {b}, st1, b, d);
    BwriteKeeps(st1, b, d);
    var st2 := BwriteStep(st1, b, d);
    BrelseHeld(st, {b}, st2, b);
    BrelseKeeps(st2, b);
    assert {b} - {b} == {};
    assert Free(BrelseStep(st2, b).bufs[b]);
  }

  /** bread and brelse of a block of the log area: nothing changed, and a buffer is still left to recycle. */
  lemma Looked(st: Store, l: Layout, blockno: nat, st1: Store, b: nat)
    requires Idle(st, l) && InLog(l, blockno) && BreadStep(st, blockno, st1, b) && HasFree(st)
    ensures Shape(st1) && st1.bufs[b].locked && st1.bufs[b].refcnt > 0 && st1.bufs[b].data == Contents(st)[blockno]
    ensures var st3 := BrelseStep(st1, b);
            Coherent(st3) && Held(st, {}, st3) && HasFree(st3) && st3.disk == st.disk &&
            Contents(st3) == Contents(st) &&
            forall x :: Pinned(st3, x) <==> Pinned(st, x)
  {
    hide Contents, Pinned, Permutation, Unique;
    LogUnlocked(st, l, blockno);
    assert Held(st, {}, st);
    BreadHeld(st, {}, st, blockno, st1, b);
    assert {} + {b} == {b};
    assert st1.bufs[b].refcnt == 1;
    BrelseHeld(st, {b}, st1, b);
    BrelseKeeps(st1, b);
    assert {b} - {b} == {};
    var f: nat :| f < NBUF && Free(st.bufs[f]);
    assert Free(BrelseStep(st1, b).bufs[if st1.bufs[b].dirty then f else b]);
  }
}
