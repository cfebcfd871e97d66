/** log.c's code over the buffer cache of bio.c: the loops that copy blocks between cache, log and home, the
    disk writes they make, and the steps of the group-commit state machine they take. */
module LogCode {
  import opened Basics
  import opened Blocks
  import opened BufferCache
  import opened LogBuffers
  import opened LogDisk
  import opened LogRuns

  /** `bread(first)` and `bread(second)`: only the first may need a free buffer. */
  method BreadBoth(cache: Bcache, first: nat, second: nat) returns (ok: bool, i: nat, j: nat)
    requires cache.Valid() && Coherent(cache.Abs()) && first != second
    requires first < |cache.Abs().disk| && second < |cache.Abs().disk|
    requires Spare(cache.Abs(), first) && Unlocked(cache.Abs(), second) && SecondSafe(cache.Abs(), second)
    modifies cache`writes, cache.buf, cache.memdisk
    ensures cache.Valid() && cache.order == old(cache.order)
    ensures ok == (Cached(old(cache.Abs()), DISK, first) || HasFree(old(cache.Abs())))
    ensures ok ==> BothRead(old(cache.Abs()), first, second, cache.Abs(), i, j) && cache.writes == old(cache.writes)
  {
    hide Contents, Permutation, Linked, BothRead;
    ghost var st := cache.Abs();
    j := 0;
    ok, i := cache.Bread(first);
    if !ok {
      return;
    }

    ghost var st1 := cache.Abs();
    FirstRead(st, first, st1, i, second);
    SecondReadable(st, st1, i, second);
    ok, j := cache.Bread(second);
    TwoReads(st, first, st1, i, second, cache.Abs(), j);
  }

  /** Copy one held buffer into the other, write that to disk and release both. */
  method WriteAndRelease(cache: Bcache, w: nat, r: nat)
    requires cache.Valid() && Coherent(cache.Abs()) && w < NBUF && r < NBUF && w != r
    requires cache.Abs().bufs[w].locked && cache.Abs().bufs[w].valid && cache.Abs().bufs[r].locked
    modifies cache`writes, cache`order, cache.buf, cache.memdisk
    ensures cache.Valid() && cache.Abs() == CopyStep(old(cache.Abs()), w, r)
    ensures cache.writes == old(cache.writes) + [(old(cache.Abs()).bufs[w].blockno, old(cache.Abs()).bufs[r].data)]
  {
    hide Linked, Permutation, Unique, MoveToFront;
    ghost var st := cache.Abs();
    MoveToFrontPermutes(st.order, r);
    var d := cache.buf[r].e.data;
    assert d == st.bufs[r].data && cache.buf[w].e == st.bufs[w];
    assert EntryOk(st.bufs[w], st.disk) && EntryOk(st.bufs[r], st.disk);
    var ok := cache.Bwrite(w, d);
    ok := cache.Brelse(r);
    ok := cache.Brelse(w);
  }

  /** Nobody has a logged block locked; the log code would otherwise be waiting for it. */
  ghost predicate AllUnlocked(st: Store, lh: seq<nat>) {
    forall b :: b in lh ==> Unlocked(st, b)
  }

  lemma StillAllUnlocked(st0: Store, st: Store, lh: seq<nat>)
    requires |st0.bufs| == NBUF && |st.bufs| == NBUF && Held(st0, {}, st) && AllUnlocked(st0, lh)
    ensures AllUnlocked(st, lh)
  {
    forall b | b in lh
      ensures Unlocked(st, b)
    {
      StillUnlocked(st0, {}, st, b);
    }
  }

  lemma StillUnused(st0: Store, st: Store)
    requires |st0.bufs| == NBUF && |st.bufs| == NBUF && Held(st0, {}, st) && Unused(st0)
    ensures Unused(st)
  {
    forall i | 0 <= i < NBUF
      ensures st.bufs[i].refcnt == 0
    {
      assert Use(st0.bufs[i], false, st.bufs[i]);
    }
  }

  /** The cache is as before but for the writes ws, on disk and in the cache. */
  ghost predicate Wrote(l: Layout, st: Store, ws: seq<Write>, st': Store) {
    Idle(st, l) && Idle(st', l) && Held(st, {}, st') &&
    st'.disk == Apply(st.disk, ws) && Contents(st') == Apply(Contents(st), ws)
  }

  lemma WroteNone(l: Layout, st: Store)
    requires Idle(st, l)
    ensures Wrote(l, st, [], st)
  {
  }

  lemma WroteTrans(l: Layout, st: Store, a: seq<Write>, st1: Store, b: seq<Write>, st2: Store)
    requires Wrote(l, st, a, st1) && Wrote(l, st1, b, st2)
    ensures Wrote(l, st, a + b, st2)
  {
    hide Apply, Contents, Held, Idle;
    ApplyAppend(st.disk, a, b);
    ApplyAppend(Contents(st), a, b);
    assert |st.bufs| == NBUF && |st1.bufs| == NBUF &&
      |st2.bufs| == NBUF by { IdleSize(st, l); IdleSize(st1, l); IdleSize(st2, l); }
    HeldTrans(st, st1, {}, st2);
  }

  lemma IdleSize(st: Store, l: Layout)
    requires Idle(st, l)
    ensures |st.bufs| == NBUF && Fits(l, st.disk)
  {
  }

  /** One block given new contents, on disk and in the cache. */
  lemma WroteOne(l: Layout, st: Store, b: nat, d: Block, st': Store)
    requires Idle(st, l) && Coherent(st') && Held(st, {}, st') && b < |st.disk|
    requires st'.disk == st.disk[b := d] && Contents(st') == Contents(st)[b := d]
    ensures Wrote(l, st, [(b, d)], st')
  {
    hide Apply, Contents, Held, Coherent;
    ApplyOne(st.disk, (b, d));
    ApplyOne(Contents(st), (b, d));
    IdleKept(st, l, st');
  }

  /** One more block copied. */
  lemma WroteCopy(l: Layout, st: Store, ws: seq<Write>, st1: Store, src: nat, dst: nat, st2: Store, lh: seq<nat>)
    requires Wrote(l, st, ws, st1) && Copied(st1, src, dst, st2) && AllUnlocked(st1, lh)
    ensures src < |st1.disk| && Wrote(l, st, ws + [(dst, Contents(st1)[src])], st2)
    ensures Idle(st2, l) && AllUnlocked(st2, lh) && |st2.disk| == |st1.disk| && Coherent(st2) && HasFree(st2)
    ensures forall b :: Pinned(st2, b) <==> Pinned(st1, b) && b != dst
  {
    hide Apply, Contents, Held, Coherent, Pinned, HasFree, AllUnlocked;
    WroteOne(l, st1, dst, Contents(st1)[src], st2);
    WroteTrans(l, st, ws, st1, [(dst, Contents(st1)[src])], st2);
    IdleSize(st1, l);
    IdleSize(st2, l);
    StillAllUnlocked(st1, st2, lh);
  }

  lemma CopiedUnused(st: Store, src: nat, dst: nat, st': Store)
    requires Copied(st, src, dst, st') && Unused(st)
    ensures Unused(st')
  {
    StillUnused(st, st');
  }

  lemma WroteMeans(l: Layout, st: Store, ws: seq<Write>, st': Store, lh: seq<nat>)
    requires Wrote(l, st, ws, st') && AllUnlocked(st, lh)
    ensures Idle(st', l) && AllUnlocked(st', lh) && |st'.disk| == |st.disk|
    ensures st'.disk == Apply(st.disk, ws) && Contents(st') == Apply(Contents(st), ws)
  {
    StillAllUnlocked(st, st', lh);
  }

  lemma WroteUnused(l: Layout, st: Store, ws: seq<Write>, st': Store)
    requires Wrote(l, st, ws, st') && Unused(st)
    ensures Unused(st')
  {
    StillUnused(st, st');
  }

  /** With nobody about and nothing pinned every buffer is free and every block unlocked. */
  lemma SomeFree(st: Store)
    requires Coherent(st) && Unused(st) && forall b :: !Pinned(st, b)
    ensures HasFree(st)
  {
    assert !Pinned(st, st.bufs[0].blockno);
    assert Free(st.bufs[0]);
  }

  lemma NobodyLocks(st: Store, lh: seq<nat>)
    requires Coherent(st) && Unused(st)
    ensures AllUnlocked(st, lh)
  {
    forall b, i | b in lh && 0 <= i < NBUF && Matches(st.bufs[i], DISK, b)
      ensures !st.bufs[i].locked
    {
      assert EntryOk(st.bufs[i], st.disk);
    }
  }

  lemma HeldOnDisk(st: Store, i: nat)
    requires Coherent(st) && i < NBUF && st.bufs[i].valid
    ensures st.bufs[i].blockno < |st.disk|
  {
    assert EntryOk(st.bufs[i], st.disk);
  }

  /** A held buffer given new contents and logged. */
  lemma UpdateKeeps(l: Layout, st: Store, lh: seq<nat>, i: nat, d: Block, st': Store)
    requires Coherent(st) && Fits(l, st.disk) && GoodList(l, |st.disk|, lh) && (forall b :: Pinned(st, b) <==> b in lh)
    requires i < NBUF && st.bufs[i].valid && st.bufs[i].locked && !InLog(l, st.bufs[i].blockno)
    requires !LogWritePanics(l, lh, 1) && st' == WithEntry(st, i, st.bufs[i].(data := d, dirty := true))
    ensures var b := st.bufs[i].blockno;
            b < |st.disk| && Coherent(st') && Contents(st') == Contents(st)[b := d] &&
            GoodList(l, |st.disk|, Absorb(lh, b)) && forall x :: Pinned(st', x) <==> x in Absorb(lh, b)
  {
    var b := st.bufs[i].blockno;
    assert EntryOk(st.bufs[i], st.disk);
    forall x: nat | x < |st.disk|
      ensures View(st', x) == if x == b then d else View(st, x)
    {
      if j :| 0 <= j < NBUF && Holds(st.bufs[j], x) {
        ViewOf(st, j);
        ViewOf(st', j);
      }
    }
    forall x
      ensures Pinned(st', x) <==> Pinned(st, x) || x == b
    {
      if Pinned(st, x) || x == b {
        var j := if x == b then i else Pin(st, x);
        assert st'.bufs[j].dirty && st'.bufs[j].blockno == x;
      }
    }
  }

  /** The blocks from the k-th on. */
  ghost function Rest(lh: seq<nat>, k: nat): set<nat> {
    set i | k <= i < |lh| :: lh[i]
  }

  lemma RestNext(lh: seq<nat>, k: nat)
    requires k < |lh| && Distinct(lh)
    ensures lh[k] in Rest(lh, k) && forall b :: b in Rest(lh, k + 1) <==> b in Rest(lh, k) && b != lh[k]
    ensures forall b :: b in Rest(lh, k) ==> b in lh
  {
  }

  lemma RestEnds(lh: seq<nat>)
    ensures Rest(lh, |lh|) == {} && forall b :: b in Rest(lh, 0) <==> b in lh
  {
    forall b | b in lh
      ensures b in Rest(lh, 0)
    {
      var i :| 0 <= i < |lh| && lh[i] == b;
    }
  }

  class Log {
    var start: nat
    var size: nat
    var outstanding: nat
    var committing: bool
    var n: nat            // lh.n
    var block: array<nat> // lh.block
    var cache: Bcache
    ghost var run: State  // where the group-commit state machine is

    /** initlog before recovery. */
    constructor (cache: Bcache, start: nat, size: nat, ghost run: State)
      requires cache.Valid()
      ensures Valid() && this.cache == cache && this.start == start && this.size == size && this.run == run
      ensures fresh(block) && outstanding == 0 && !committing && n == 0
    {
      this.cache, this.start, this.size, this.run := cache, start, size, run;
      outstanding, committing, n := 0, false, 0;
      block := new nat[LOGSIZE];
    }

    ghost predicate Valid()
      reads this, block, cache, cache.buf
    {
      block.Length == LOGSIZE && n <= LOGSIZE && cache.Valid()
    }

    ghost function Lh(): seq<nat>
      requires Valid()
      reads this, block, cache, cache.buf
    {
      block[..n]
    }

    function L(): Layout
      reads this
    {
      Layout(start, size)
    }

    /** The blocks pinned in the cache are those the in-memory header lists. */
    ghost predicate Pins()
      requires Valid()
      reads this, block, cache, cache.buf, cache.memdisk
    {
      Coherent(cache.Abs()) && Fits(L(), cache.Abs().disk) && GoodList(L(), |cache.Abs().disk|, Lh()) &&
      forall b :: Pinned(cache.Abs(), b) <==> b in Lh()
    }

    /** Between calls the fields, the cache and the disk are those of the state machine. */
    ghost predicate Tied()
      requires Valid()
      reads this, block, cache, cache.buf, cache.memdisk
    {
      Pins() && run.disk == cache.Abs().disk && run.contents == Contents(cache.Abs()) && run.lh == Lh() &&
      |run.open| == outstanding && (committing ==> outstanding == 0) &&
      run.phase == if committing then Committing(0, run.disk, run.contents) else Running
    }

    // -------------------------------------------------------------- copying

    /** One iteration of write_log: copy the tail-th logged block from the cache to the log area. */
    method CopyToLog(tail: nat) returns (ok: bool)
      requires Valid() && tail < n && Pins() && Idle(cache.Abs(), L()) && AllUnlocked(cache.Abs(), Lh())
      modifies cache`writes, cache`order, cache.buf, cache.memdisk
      ensures Valid() && ok == (Cached(old(cache.Abs()), DISK, start + tail + 1) || HasFree(old(cache.Abs())))
      ensures ok ==> Copied(old(cache.Abs()), Lh()[tail], start + tail + 1, cache.Abs())
      ensures ok ==> cache.writes == old(cache.writes) + [(start + tail + 1, Contents(old(cache.Abs()))[Lh()[tail]])]
    {
      hide Bcache.Abs, Bcache.Valid, Contents, Permutation, Linked, Copied, Held, Coherent, CopyStep, Pinned, Spare;
      ghost var st := cache.Abs();
      assert block[tail] == Lh()[tail];
      LogSpare(st, L(), Lh(), start + tail + 1);
      var to, from;
      ok, to, from := BreadBoth(cache, start + tail + 1, block[tail]);
      if ok {
        CopyMakes(st, start + tail + 1, block[tail], cache.Abs(), to, from);
        WriteAndRelease(cache, to, from);
      }
    }

    /** write_log; `ok` is false where bget panics. */
    method WriteLog() returns (ok: bool)
      requires Valid() && Pins() && Idle(cache.Abs(), L()) && AllUnlocked(cache.Abs(), Lh())
      modifies cache`writes, cache`order, cache.buf, cache.memdisk
      ensures Valid() && ok == (n == 0 || HasFree(old(cache.Abs())) || Cached(old(cache.Abs()), DISK, start + 1))
      ensures ok ==> var ws := LogWrites(L(), Contents(old(cache.Abs())), Lh());
                Wrote(L(), old(cache.Abs()), ws, cache.Abs()) && cache.writes == old(cache.writes) + ws &&
                Pins() && (n > 0 ==> HasFree(cache.Abs()))
    {
      hide Bcache.Abs, Bcache.Valid, Contents, Permutation, Linked, Held, Coherent, Pinned, Apply, Copied, AllUnlocked,
        NoLogUsers;
      ghost var st, lh := cache.Abs(), Lh();
      ghost var c := Contents(st);
      ghost var ws := LogWrites(L(), c, lh);
      WroteNone(L(), st);
      var tail := 0;
      while tail < n
        invariant tail <= n && Valid() && Lh() == lh && Pins() && Wrote(L(), st, ws[..tail], cache.Abs())
        invariant AllUnlocked(cache.Abs(), lh) && cache.writes == old(cache.writes) + ws[..tail]
        invariant if tail > 0 then HasFree(cache.Abs()) && (HasFree(st) || Cached(st, DISK, start + 1))
                  else cache.Abs() == st
      {
        LogWritesStep(L(), c, lh, tail);
        ghost var st1 := cache.Abs();
        ok := CopyToLog(tail);
        if !ok {
          return;
        }
        WroteCopy(L(), st, ws[..tail], st1, lh[tail], start + tail + 1, cache.Abs(), lh);
        tail := tail + 1;
      }
      assert ws[..n] == ws;
      ok := true;
    }

    /** One iteration of install_trans: copy the tail-th block of the log area to its home. */
    method CopyHome(tail: nat) returns (ok: bool)
      requires Valid() && tail < n && Idle(cache.Abs(), L()) && GoodList(L(), |cache.Abs().disk|, Lh())
      requires AllUnlocked(cache.Abs(), Lh()) && SecondSafe(cache.Abs(), Lh()[tail])
      requires forall b :: Pinned(cache.Abs(), b) ==> b in Lh()
      modifies cache`writes, cache`order, cache.buf, cache.memdisk
      ensures Valid() && ok == (Cached(old(cache.Abs()), DISK, start + tail + 1) || HasFree(old(cache.Abs())))
      ensures ok ==> Copied(old(cache.Abs()), start + tail + 1, Lh()[tail], cache.Abs())
      ensures ok ==> cache.writes == old(cache.writes) + [(Lh()[tail], Contents(old(cache.Abs()))[start + tail + 1])]
    {
      hide Bcache.Abs, Bcache.Valid, Contents, Permutation, Linked, Copied, Held, Coherent, CopyStep, Pinned, Spare,
        SecondSafe;
      ghost var st := cache.Abs();
      assert block[tail] == Lh()[tail];
      LogSpare(st, L(), Lh(), start + tail + 1);
      var lbuf, dbuf;
      ok, lbuf, dbuf := BreadBoth(cache, start + tail + 1, block[tail]);
      if ok {
        CopyMakes(st, start + tail + 1, block[tail], cache.Abs(), lbuf, dbuf);
        WriteAndRelease(cache, dbuf, lbuf);
      }
    }

    /** install_trans, with either the logged blocks pinned, or nothing pinned and nobody about; every block is
        unpinned after. */
    method InstallTrans()
      requires Valid() && Idle(cache.Abs(), L()) && GoodList(L(), |cache.Abs().disk|, Lh()) && HasFree(cache.Abs())
      requires AllUnlocked(cache.Abs(), Lh())
      requires Pins() || (Unused(cache.Abs()) && forall b :: !Pinned(cache.Abs(), b))
      modifies cache`writes, cache`order, cache.buf, cache.memdisk
      ensures Valid() && HasFree(cache.Abs()) && forall b :: !Pinned(cache.Abs(), b)
      ensures var ws := InstallWrites(L(), Contents(old(cache.Abs())), Lh());
              Wrote(L(), old(cache.Abs()), ws, cache.Abs()) && cache.writes == old(cache.writes) + ws
    {
      hide Bcache.Abs, Bcache.Valid, Contents, Permutation, Linked, Held, Coherent, Pinned, Apply, HasFree, Cached,
        Unused, Copied, AllUnlocked, NoLogUsers, Rest;
      ghost var st, lh := cache.Abs(), Lh();
      ghost var c := Contents(st);
      ghost var ws := InstallWrites(L(), c, lh);
      ghost var some := Pins();
      WroteNone(L(), st);
      RestEnds(lh);
      var tail := 0;
      while tail < n
        invariant tail <= n && Valid() && Lh() == lh && HasFree(cache.Abs()) && Wrote(L(), st, ws[..tail], cache.Abs())
        invariant AllUnlocked(cache.Abs(), lh) && cache.writes == old(cache.writes) + ws[..tail]
        invariant forall b :: Pinned(cache.Abs(), b) <==> some && b in Rest(lh, tail)
        invariant some || Unused(cache.Abs())
      {
        InstallWritesStep(L(), c, lh, tail);
        RestNext(lh, tail);
        ghost var st1 := cache.Abs();
        var ok := CopyHome(tail);
        WroteCopy(L(), st, ws[..tail], st1, start + tail + 1, lh[tail], cache.Abs(), lh);
        if !some {
          CopiedUnused(st1, start + tail + 1, lh[tail], cache.Abs());
        }
        tail := tail + 1;
      }
      assert ws[..n] == ws;
    }

    // -------------------------------------------------------------- the header

    /** The copying loop of write_head. */
    method Encode(h: Block) returns (d: Block)
      requires Valid() && forall i :: 0 <= i < n ==> block[i] < 0x1_0000_0000
      ensures d == PutHeader(h, Lh())
    {
      d := PutWord(h, 0, n);
      var i := 0;
      while i < n
        invariant i <= n && d == PutEntries(h, Lh(), i)
      {
        d := PutWord(d, i + 1, block[i]);
        i := i + 1;
      }
    }

    /** write_head: store n and the listed block numbers over the header block. */
    method WriteHead()
      requires Valid() && Idle(cache.Abs(), L()) && GoodList(L(), |cache.Abs().disk|, Lh()) && HasFree(cache.Abs())
      modifies cache`writes, cache`order, cache.buf, cache.memdisk
      ensures Valid() && HasFree(cache.Abs())
      ensures forall b :: Pinned(cache.Abs(), b) <==> old(Pinned(cache.Abs(), b)) && b != start
      ensures var ws := [(start, PutHeader(Contents(old(cache.Abs()))[start], Lh()))];
              Wrote(L(), old(cache.Abs()), ws, cache.Abs()) && cache.writes == old(cache.writes) + ws
    {
      hide Contents, Permutation, Linked, Pinned, Unique, EntryOk, BwriteStep, BrelseStep, Held, NoLogUsers, Apply;
      ghost var st, lh := cache.Abs(), Lh();
      LogUnlocked(st, L(), start);
      var ok, b := cache.Bread(start);
      ghost var st1 := cache.Abs();
      assert cache.buf[b].e == st1.bufs[b];
      ghost var h := PutHeader(st1.bufs[b].data, lh);
      Rewritten(st, L(), start, st1, b, h);
      var d := Encode(cache.buf[b].e.data);
      ok := cache.Bwrite(b, d);
      ok := cache.Brelse(b);
      WroteOne(L(), st, start, h, cache.Abs());
    }

    /** commit(): exactly the disk writes CommitWrites, in that order, whoever else is using the cache. It
        succeeds exactly when the logged blocks and the buffers in use besides leave one of the NBUF to recycle:
        with none left for the log block, bget panics. */
    method Commit() returns (ok: bool)
      requires Valid() && Pins() && Idle(cache.Abs(), L()) && AllUnlocked(cache.Abs(), Lh())
      modifies this`n, cache`writes, cache`order, cache.buf, cache.memdisk
      ensures Valid() && ok == (old(n) == 0 || old(n) + |Readers(old(cache.Abs()))| < NBUF)
      ensures ok ==> n == 0 && Pins()
      ensures ok ==> var ws := CommitWrites(L(), Contents(old(cache.Abs())), old(Lh()));
                Wrote(L(), old(cache.Abs()), ws, cache.Abs()) && cache.writes == old(cache.writes) + ws &&
                SameHome(L(), Contents(cache.Abs()), Contents(old(cache.Abs())))
    {
      hide Bcache.Abs, Bcache.Valid, Contents, Permutation, Linked, Held, Coherent, Pinned, Apply, CommitWrites,
        LogWrites, InstallWrites, PutHeader, Cached, HasFree, Readers, Wrote, NoLogUsers;
      ghost var st, lh := cache.Abs(), Lh();
      ghost var c := Contents(st);
      CommitKeepsHome(L(), c, lh);
      if n == 0 {
        CommitNothing(L(), st.disk, c);
        WroteNone(L(), st);
        return true;
      }
      CommitOk(st, L(), lh);
      CommitChain(L(), c, lh);
      ok := WriteLog();
      if !ok {
        return;
      }
      ghost var st1 := cache.Abs();
      ghost var lw := LogWrites(L(), c, lh);
      WroteMeans(L(), st, lw, st1, lh);
      WriteHead();
      ghost var st2 := cache.Abs();
      ghost var h := PutHeader(Contents(st1)[start], lh);
      WroteMeans(L(), st1, [(start, h)], st2, lh);
      ApplyOne(Contents(st1), (start, h));
      InstallTrans();
      ghost var st3 := cache.Abs();
      ghost var iw := InstallWrites(L(), Contents(st2), lh);
      WroteMeans(L(), st2, iw, st3, lh);
      n := 0;
      assert Lh() == [];
      WriteHead();
      WroteTrans(L(), st, lw, st1, [(start, h)], st2);
      WroteTrans(L(), st, lw + [(start, h)], st2, iw, st3);
      WroteTrans(L(), st, lw + [(start, h)] + iw, st3, [(start, PutHeader(Contents(st3)[start], []))], cache.Abs());
      WroteMeans(L(), st, CommitWrites(L(), c, lh), cache.Abs(), []);
    }

    /** The copying loop of read_head. */
    method Decode(h: Block)
      requires Valid() && HeaderCount(h) <= LOGSIZE
      modifies this`n, block
      ensures Valid() && Lh() == HeaderList(h)
    {
      n := HeaderCount(h);
      var i := 0;
      while i < n
        modifies block
        invariant i <= n && forall k :: 0 <= k < i ==> block[k] == HeaderList(h)[k]
      {
        block[i] := GetWord(h, i + 1);
        i := i + 1;
      }
    }

    /** read_head; the header on disk must list no more than the array holds. */
    method ReadHead()
      requires Valid() && Idle(cache.Abs(), L()) && HasFree(cache.Abs())
      requires GoodHeader(L(), Contents(cache.Abs()))
      modifies this`n, block, cache`writes, cache`order, cache.buf, cache.memdisk
      ensures Valid() && HasFree(cache.Abs()) && Lh() == HeaderList(Contents(old(cache.Abs()))[start])
      ensures Wrote(L(), old(cache.Abs()), [], cache.Abs()) && cache.writes == old(cache.writes)
      ensures forall b :: Pinned(cache.Abs(), b) <==> old(Pinned(cache.Abs(), b))
    {
      hide Contents, Permutation, Linked, Pinned, Unique, EntryOk, GoodList, BrelseStep, Held, NoLogUsers;
      ghost var st := cache.Abs();
      LogUnlocked(st, L(), start);
      var ok, b := cache.Bread(start);
      ghost var st1 := cache.Abs();
      Looked(st, L(), start, st1, b);
      var h := cache.buf[b].e.data;
      assert h == st1.bufs[b].data;
      Decode(h);
      ok := cache.Brelse(b);
      IdleKept(st, L(), cache.Abs());
    }

    /** recover_from_log() on a cold cache: exactly the disk writes RecoverWrites, leaving the disk Recover, as a
        chain of RecoverWrite steps and a RecoverEnd. */
    method RecoverFromLog() returns (ghost states: seq<State>, ghost steps: seq<Step>)
      requires Valid() && Idle(cache.Abs(), L()) && Unused(cache.Abs()) && forall b :: !Pinned(cache.Abs(), b)
      requires Contents(cache.Abs()) == cache.Abs().disk == run.disk && StartsRecovery(L(), run)
      requires !committing && |run.open| == outstanding && run.lh == []
      modifies this`n, this`run, block, cache`writes, cache`order, cache.buf, cache.memdisk
      ensures Valid() && Tied() && n == 0
      ensures cache.writes == old(cache.writes) + RecoverWrites(L(), old(run).disk)
      ensures cache.Abs().disk == Recover(L(), old(run).disk)
      ensures Follows(L(), states, steps) && states[0] == old(run) && states[|steps|] == run
      ensures steps == seq(|RecoverWrites(L(), old(run).disk)|, k => RecoverWrite) + [RecoverEnd]
    {
      hide Bcache.Abs, Bcache.Valid, Contents, Permutation, Linked, Held, Coherent, Pinned, Apply, InstallWrites,
        RecoverWrites, PutHeader, Cached, HasFree, Unused, NoLogUsers, Wrote;
      ghost var st, d := cache.Abs(), cache.Abs().disk;
      SomeFree(st);
      RecoverChain(L(), d);
      ReadHead();
      ghost var st1, lh := cache.Abs(), Lh();
      NobodyLocks(st, lh);
      WroteMeans(L(), st, [], st1, lh);
      ApplyNone(d, []);
      WroteUnused(L(), st, [], st1);
      InstallTrans();
      ghost var st2 := cache.Abs();
      WroteMeans(L(), st1, InstallWrites(L(), d, lh), st2, lh);
      n := 0;
      WriteHead();
      WroteMeans(L(), st2, [(start, PutHeader(Contents(st2)[start], []))], cache.Abs(), []);
      WroteTrans(L(), st1, InstallWrites(L(), d, lh), st2, [(start, PutHeader(Contents(st2)[start], []))], cache.Abs());
      WroteMeans(L(), st1, RecoverWrites(L(), d), cache.Abs(), []);
      states, steps := RecoverRun(L(), run);
      run := Recovered(L(), run);
      assert Lh() == [];
    }

    // -------------------------------------------------------------- operations

    /** begin_op's test, once around its loop: a BeginOp step, or sleep where none is possible. */
    method BeginOp(ghost op: nat) returns (go: bool)
      requires Valid() && Tied() && op !in run.begun
      modifies this`outstanding, this`run
      ensures Valid() && Tied()
      ensures go <==> !old(committing) && old(n) + (old(outstanding) + 1) * MAXOPBLOCKS <= LOGSIZE
      ensures if go then Next(L(), old(run), Step.BeginOp(op), run)
              else run == old(run) && forall s :: !Next(L(), run, Step.BeginOp(op), s)
    {
      go := !(committing || n + (outstanding + 1) * MAXOPBLOCKS > LOGSIZE);
      if go {
        outstanding := outstanding + 1;
        run := run.(open := run.open + [Op(op, 0)], begun := run.begun + {op});
      }
    }

    /** log_write of a held buffer; `ok` is false where it panics. */
    method LogWrite(b: nat) returns (ok: bool)
      requires Valid() && b < NBUF
      modifies this`n, block, cache.buf
      ensures Valid() && ok == !LogWritePanics(L(), old(Lh()), outstanding)
      ensures ok ==> Lh() == Absorb(old(Lh()), old(cache.Abs()).bufs[b].blockno)
      ensures ok ==> cache.Abs() == WithEntry(old(cache.Abs()), b, old(cache.Abs()).bufs[b].(dirty := true))
      ensures !ok ==> Lh() == old(Lh()) && cache.Abs() == old(cache.Abs())
    {
      if n >= LOGSIZE || n >= size - 1 || outstanding < 1 {
        return false;
      }
      ghost var lh := Lh();
      var blockno := cache.buf[b].e.blockno;
      assert cache.Abs().bufs[b] == cache.buf[b].e;
      var i := 0;
      while i < n && block[i] != blockno
        invariant i <= n && blockno !in lh[..i]
      {
        i := i + 1;
      }
      block[i] := blockno;
      if i == n {
        n := n + 1;
        assert block[..n] == lh + [blockno];
      } else {
        assert lh[i] == blockno;
        assert block[..n] == lh;
      }
      cache.SetEntry(b, cache.buf[b].e.(dirty := true));
      ok := true;
    }

    /** What every writer of a home block does: change the buffer it holds, then log_write it. A LogWrite step of
        the j-th open operation, or a panic where none is possible. */
    method Update(b: nat, d: Block, ghost j: nat) returns (ok: bool)
      requires Valid() && Tied() && b < NBUF && j < outstanding
      requires var e := cache.Abs().bufs[b]; e.valid && e.locked && !InLog(L(), e.blockno)
      modifies this`n, this`run, block, cache.buf
      ensures Valid() && ok == !LogWritePanics(L(), old(Lh()), outstanding)
      ensures var step := Step.LogWrite(j, old(cache.Abs()).bufs[b].blockno, d);
              if ok then Tied() && Next(L(), old(run), step, run) else forall s :: !Next(L(), old(run), step, s)
    {
      hide Contents, Permutation, Linked, Coherent, Pinned, GoodList, Next;
      ghost var st, lh := cache.Abs(), Lh();
      assert st.bufs[b] == cache.buf[b].e;
      HeldOnDisk(st, b);
      LogWriteNext(L(), run, j, st.bufs[b].blockno, d);
      cache.SetEntry(b, cache.buf[b].e.(data := d));
      assert cache.Abs().bufs[b] == st.bufs[b].(data := d);
      ok := LogWrite(b);
      if ok {
        ghost var blockno := st.bufs[b].blockno;
        UpdateKeeps(L(), st, lh, b, d, cache.Abs());
        run := AfterLogWrite(run, j, blockno, d);
      }
    }

    /** end_op up to its commit: an EndOp step of the j-th open operation. `ok` would be false where it panics
        because a commit is under way; an open operation never finds one. */
    method EndOp(ghost j: nat) returns (ok: bool, commit: bool)
      requires Valid() && Tied() && j < outstanding
      modifies this`outstanding, this`committing, this`run
      ensures Valid() && Tied() && ok && committing == commit == (outstanding == 0)
      ensures Next(L(), old(run), Step.EndOp(j), run)
    {
      outstanding := outstanding - 1;
      if committing {
        return false, false;
      }
      ok, commit := true, outstanding == 0;
      run := run.(open := RemoveAt(run.open, j), ended := run.ended + {run.open[j].id},
        phase := if |run.open| == 1 then Committing(0, run.disk, run.contents) else run.phase);
      if commit {
        committing := true;
      }
    }

    /** The rest of end_op when it must commit: a chain of CommitWrite steps, one for each disk write, and a
        CommitEnd. `ok` is false where the commit finds no buffer. */
    method EndCommit() returns (ok: bool, ghost states: seq<State>, ghost steps: seq<Step>)
      requires Valid() && Tied() && committing && Idle(cache.Abs(), L()) && AllUnlocked(cache.Abs(), Lh())
      modifies this`n, this`committing, this`run, cache`writes, cache`order, cache.buf, cache.memdisk
      ensures Valid() && ok == (old(n) == 0 || old(n) + |Readers(old(cache.Abs()))| < NBUF)
      ensures ok ==> Tied() && !committing && n == 0
      ensures ok ==> Follows(L(), states, steps) && states[0] == old(run) && states[|steps|] == run
      ensures ok ==> steps == seq(|CommitWrites(L(), old(run).contents, old(run).lh)|, k => CommitWrite) + [CommitEnd]
    {
      hide Bcache.Abs, Bcache.Valid, Contents, Permutation, Linked, Held, Coherent, Pinned, Apply, CommitWrites,
        Readers, NoLogUsers, Next;
      ghost var st, lh := cache.Abs(), Lh();
      ok := Commit();
      states, steps := [], [];
      if ok {
        states, steps := CommitRun(L(), run);
        ghost var ws := CommitWrites(L(), run.contents, run.lh);
        assert ws[..|ws|] == ws;
        run := Committed(L(), run);
        committing := false;
        assert Lh() == [];
      }
    }
  }
}
