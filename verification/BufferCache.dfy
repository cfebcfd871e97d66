/** bio.c over memide.c: NBUF buffers on a circular doubly linked list, most recently used first.

    A pointer into `bcache.buf` is the index of the buffer; `&bcache.head` is the index NBUF. */
module BufferCache {
  import opened Basics
  import opened Blocks

  const NBUF: nat := 30
  const HEAD: nat := NBUF
  const DISK: nat := 1 // the only device iderw serves

  /** What a `struct buf` holds, links apart. */
  datatype Entry = Entry(valid: bool, dirty: bool, dev: nat, blockno: nat, refcnt: nat, locked: bool, data: Block)

  datatype Buf = Buf(e: Entry, prev: nat, next: nat)

  /** The cache without its pointers: the buffers, and their indices from `head.next` to `head.prev`,
      with the disk below. */
  datatype Store = Store(bufs: seq<Entry>, order: seq<nat>, disk: seq<Block>)

  // ---------------------------------------------------------------- lists

  ghost predicate Buffers(s: seq<nat>) {
    (forall k :: 0 <= k < |s| ==> s[k] < NBUF) &&
    forall j, k :: 0 <= j < k < |s| ==> s[j] != s[k]
  }

  /** `order` lists every buffer exactly once. */
  ghost predicate Permutation(order: seq<nat>) {
    |order| == NBUF && Buffers(order) && forall i: nat :: i < NBUF ==> i in order
  }

  /** The k-th list element, the head standing before the first and after the last. */
  function At(order: seq<nat>, k: int): nat {
    if 0 <= k < |order| then order[k] else HEAD
  }

  ghost predicate LinkAt(s: seq<Buf>, order: seq<nat>, k: nat)
    requires k < |order| && order[k] < |s|
  {
    s[order[k]].next == At(order, k + 1) && s[order[k]].prev == At(order, k - 1)
  }

  /** The pointers in `s` thread exactly the list `order`, both ways, through the head. */
  ghost predicate Linked(s: seq<Buf>, order: seq<nat>) {
    |s| == NBUF + 1 && Buffers(order) &&
    s[HEAD].next == At(order, 0) && s[HEAD].prev == At(order, |order| - 1) &&
    forall k: nat :: k < |order| ==> LinkAt(s, order, k)
  }

  function Unlink(s: seq<Buf>, b: nat): (r: seq<Buf>)
    requires b < |s| && s[b].next < |s| && s[b].prev < |s|
    ensures |r| == |s|
    ensures forall x :: 0 <= x < |s| ==>
              r[x] == Buf(s[x].e, if x == s[b].next then s[b].prev else s[x].prev,
                          if x == s[b].prev then s[b].next else s[x].next)
  {
    var n, p := s[b].next, s[b].prev;
    var s1 := s[n := s[n].(prev := p)];
    s1[p := s1[p].(next := n)]
  }

  function PushFront(s: seq<Buf>, b: nat): (r: seq<Buf>)
    requires b < HEAD < |s| && s[HEAD].next < |s| && s[HEAD].next != b
    ensures |r| == |s|
    ensures forall x :: 0 <= x < |s| ==>
              r[x] == Buf(s[x].e, if x == b then HEAD else if x == s[HEAD].next then b else s[x].prev,
                          if x == b then s[HEAD].next else if x == HEAD then b else s[x].next)
  {
    var f := s[HEAD].next;
    var s1 := s[b := s[b].(next := f, prev := HEAD)];
    var s2 := s1[f := s1[f].(prev := b)];
    s2[HEAD := s2[HEAD].(next := b)]
  }

  lemma UnlinkLinked(s: seq<Buf>, order: seq<nat>, k: nat)
    requires Linked(s, order) && k < |order|
    ensures LinkAt(s, order, k)
    ensures Linked(Unlink(s, order[k]), RemoveAt(order, k))
  {
    var b, rest := order[k], RemoveAt(order, k);
    assert LinkAt(s, order, k);
    var r := Unlink(s, b);
    forall j: nat | j < |rest|
      ensures LinkAt(r, rest, j)
    {
      var o := if j < k then j else j + 1;
      assert LinkAt(s, order, o);
      assert rest[j] == order[o];
      assert order[o] == s[b].prev <==> o == k - 1;
      assert order[o] == s[b].next <==> o == k + 1;
    }
  }

  lemma PushLinked(s: seq<Buf>, order: seq<nat>, b: nat)
    requires Linked(s, order) && b < NBUF && b !in order
    ensures Linked(PushFront(s, b), [b] + order)
  {
    var longer := [b] + order;
    var r := PushFront(s, b);
    forall j: nat | j < |longer|
      ensures LinkAt(r, longer, j)
    {
      if j > 0 {
        assert LinkAt(s, order, j - 1);
        assert longer[j] == order[j - 1];
        assert order[j - 1] == s[HEAD].next <==> j == 1;
      }
    }
  }

  /** Changing what buffers hold leaves the list alone. */
  lemma SameLinks(s: seq<Buf>, r: seq<Buf>, order: seq<nat>)
    requires Linked(s, order) && |r| == |s|
    requires forall x :: 0 <= x < |s| ==> r[x].prev == s[x].prev && r[x].next == s[x].next
    ensures Linked(r, order)
  {
    forall k: nat | k < |order|
      ensures LinkAt(r, order, k)
    {
      assert LinkAt(s, order, k);
    }
  }

  // ---------------------------------------------------------------- steps

  predicate Matches(e: Entry, dev: nat, blockno: nat) {
    e.dev == dev && e.blockno == blockno
  }

  /** A buffer bget may recycle: unreferenced, and not pinned by the log. */
  predicate Free(e: Entry) {
    e.refcnt == 0 && !e.dirty
  }

  ghost predicate Shape(st: Store) {
    |st.bufs| == NBUF && Permutation(st.order)
  }

  ghost predicate Cached(st: Store, dev: nat, blockno: nat) {
    exists i: nat :: i < |st.bufs| && Matches(st.bufs[i], dev, blockno)
  }

  ghost predicate HasFree(st: Store) {
    exists i: nat :: i < |st.bufs| && Free(st.bufs[i])
  }

  /** Buffer i is the first match in list order. */
  ghost predicate Hit(st: Store, dev: nat, blockno: nat, i: nat)
    requires Shape(st)
  {
    exists k: nat :: k < NBUF && st.order[k] == i && Matches(st.bufs[i], dev, blockno) &&
      forall j: nat :: j < k ==> !Matches(st.bufs[st.order[j]], dev, blockno)
  }

  /** Buffer i is the free buffer nearest the tail. */
  ghost predicate Victim(st: Store, i: nat)
    requires Shape(st)
  {
    exists k: nat :: k < NBUF && st.order[k] == i && Free(st.bufs[i]) &&
      forall j: nat :: k < j < NBUF ==> !Free(st.bufs[st.order[j]])
  }

  function WithEntry(st: Store, i: nat, e: Entry): Store
    requires i < |st.bufs|
  {
    st.(bufs := st.bufs[i := e])
  }

  /** bget up to the release of bcache.lock. */
  ghost predicate GetStep(st: Store, dev: nat, blockno: nat, st': Store, i: nat)
    requires Shape(st)
  {
    i < NBUF &&
    if Cached(st, dev, blockno)
    then Hit(st, dev, blockno, i) && st' == WithEntry(st, i, st.bufs[i].(refcnt := st.bufs[i].refcnt + 1))
    else Victim(st, i) && st' == WithEntry(st, i,
        st.bufs[i].(dev := dev, blockno := blockno, valid := false, refcnt := 1))
  }

  ghost function Position(order: seq<nat>, i: nat): (k: nat)
    requires i in order
    ensures k < |order| && order[k] == i
  {
    var k :| 0 <= k < |order| && order[k] == i;
    k
  }

  ghost function MoveToFront(order: seq<nat>, i: nat): seq<nat>
    requires i in order
  {
    [i] + RemoveAt(order, Position(order, i))
  }

  lemma MoveToFrontPermutes(order: seq<nat>, i: nat)
    requires Permutation(order) && i < NBUF
    ensures Permutation(MoveToFront(order, i))
  {
    var k, r := Position(order, i), MoveToFront(order, i);
    forall x: nat | x < NBUF
      ensures x in r
    {
      var j := Position(order, x);
      assert x == r[if j < k then j + 1 else if j == k then 0 else j];
    }
  }

  /** brelse after releasesleep: drop a reference, and move to the front with the last one. */
  ghost function PutStep(st: Store, i: nat): Store
    requires Shape(st) && i < NBUF && st.bufs[i].refcnt > 0
  {
    var e := st.bufs[i].(refcnt := st.bufs[i].refcnt - 1);
    var st1 := WithEntry(st, i, e);
    if e.refcnt == 0 then st1.(order := MoveToFront(st.order, i)) else st1
  }

  /** iderw panics on this buffer. */
  predicate IdePanics(e: Entry, size: nat) {
    !e.locked || (e.valid && !e.dirty) || e.dev != DISK || e.blockno >= size
  }

  function IdeStep(st: Store, i: nat): Store
    requires i < |st.bufs| && !IdePanics(st.bufs[i], |st.disk|)
  {
    var e := st.bufs[i];
    if e.dirty
    then WithEntry(st.(disk := st.disk[e.blockno := e.data]), i, e.(dirty := false, valid := true))
    else WithEntry(st, i, e.(data := st.disk[e.blockno], valid := true))
  }

  // ---------------------------------------------------------------- what a block holds

  /** At most one buffer per block of a real device. binit tags every buffer with device 0. */
  ghost predicate Unique(bufs: seq<Entry>) {
    forall i, j :: 0 <= i < j < |bufs| && bufs[i].dev != 0 ==> !Matches(bufs[j], bufs[i].dev, bufs[i].blockno)
  }

  ghost predicate EntryOk(e: Entry, disk: seq<Block>) {
    (e.dirty ==> e.valid) && (e.locked ==> e.refcnt > 0) &&
    (e.valid ==> e.dev == DISK && e.blockno < |disk|) &&
    (e.valid && !e.dirty && !e.locked ==> e.data == disk[e.blockno])
  }

  /** Between operations: a buffer that is neither pinned nor in someone's hands mirrors the disk. */
  ghost predicate Coherent(st: Store) {
    Shape(st) && Unique(st.bufs) && forall i :: 0 <= i < NBUF ==> EntryOk(st.bufs[i], st.disk)
  }

  predicate Holds(e: Entry, blockno: nat) {
    e.valid && Matches(e, DISK, blockno)
  }

  /** The contents bread gives for a block. */
  ghost function View(st: Store, blockno: nat): Block
    requires blockno < |st.disk|
  {
    if exists i :: 0 <= i < |st.bufs| && Holds(st.bufs[i], blockno)
    then var i :| 0 <= i < |st.bufs| && Holds(st.bufs[i], blockno); st.bufs[i].data
    else st.disk[blockno]
  }

  ghost function Contents(st: Store): (r: seq<Block>)
    ensures |r| == |st.disk|
  {
    seq(|st.disk|, b requires 0 <= b < |st.disk| => View(st, b))
  }

  ghost predicate Pinned(st: Store, blockno: nat) {
    exists i :: 0 <= i < |st.bufs| && st.bufs[i].dirty && st.bufs[i].blockno == blockno
  }

  ghost function Pin(st: Store, b: nat): (i: nat)
    requires Pinned(st, b)
    ensures i < |st.bufs| && st.bufs[i].dirty && st.bufs[i].blockno == b
  {
    var i :| 0 <= i < |st.bufs| && st.bufs[i].dirty && st.bufs[i].blockno == b;
    i
  }

  lemma ViewOf(st: Store, i: nat)
    requires Coherent(st) && i < NBUF && st.bufs[i].valid
    ensures View(st, st.bufs[i].blockno) == st.bufs[i].data
  {
  }

  ghost predicate Unlocked(st: Store, blockno: nat) {
    forall i :: 0 <= i < |st.bufs| && Matches(st.bufs[i], DISK, blockno) ==> !st.bufs[i].locked
  }

  /** The whole of bread, when the buffer's sleeplock is free. */
  ghost predicate BreadStep(st: Store, blockno: nat, st': Store, i: nat)
    requires Shape(st)
  {
    i < NBUF && blockno < |st.disk| && st'.order == st.order && st'.disk == st.disk && |st'.bufs| == NBUF &&
    (if Cached(st, DISK, blockno)
     then Matches(st.bufs[i], DISK, blockno) &&
          st'.bufs[i] == st.bufs[i].(refcnt := st.bufs[i].refcnt + 1, locked := true, valid := true,
            data := if st.bufs[i].valid then st.bufs[i].data else st.disk[blockno])
     else Free(st.bufs[i]) && st'.bufs[i] == Entry(true, false, DISK, blockno, 1, true, st.disk[blockno])) &&
    forall j :: 0 <= j < NBUF && j != i ==> st'.bufs[j] == st.bufs[j]
  }

  /** bread hands over the block's contents and changes no block's contents. */
  lemma BreadKeeps(st: Store, blockno: nat, st': Store, i: nat)
    requires Coherent(st) && Unlocked(st, blockno) && BreadStep(st, blockno, st', i)
    ensures Coherent(st') && Contents(st') == Contents(st)
    ensures st'.bufs[i].data == View(st, blockno) && !st.bufs[i].locked
    ensures forall b :: Pinned(st', b) <==> Pinned(st, b)
  {
  }

  /** Fill a held buffer and bwrite it. */
  function BwriteStep(st: Store, i: nat, d: Block): Store
    requires i < |st.bufs| && st.bufs[i].locked && st.bufs[i].dev == DISK && st.bufs[i].blockno < |st.disk|
  {
    IdeStep(WithEntry(st, i, st.bufs[i].(data := d, dirty := true)), i)
  }

  lemma BwriteKeeps(st: Store, i: nat, d: Block)
    requires Coherent(st) && i < NBUF && st.bufs[i].valid && st.bufs[i].locked
    ensures var st' := BwriteStep(st, i, d); var b := st.bufs[i].blockno;
            Coherent(st') && st'.disk == st.disk[b := d] && Contents(st') == Contents(st)[b := d] &&
            forall x :: Pinned(st', x) <==> Pinned(st, x) && x != b
  {
    var st', b := BwriteStep(st, i, d), st.bufs[i].blockno;
    forall x: nat | x < |st.disk|
      ensures View(st', x) == if x == b then d else View(st, x)
    {
      if j :| 0 <= j < NBUF && Holds(st.bufs[j], x) {
        ViewOf(st, j);
        ViewOf(st', j);
      }
    }
    forall x
      ensures Pinned(st', x) <==> Pinned(st, x) && x != b
    {
      if j :| 0 <= j < NBUF && st.bufs[j].dirty && st.bufs[j].blockno == x && x != b {
        assert st'.bufs[j].dirty && st'.bufs[j].blockno == x;
      }
    }
  }

  /** brelse: give up the sleeplock, then the reference. */
  ghost function BrelseStep(st: Store, i: nat): Store
    requires Shape(st) && i < NBUF && st.bufs[i].refcnt > 0
  {
    PutStep(WithEntry(st, i, st.bufs[i].(locked := false)), i)
  }

  lemma BrelseKeeps(st: Store, i: nat)
    requires Coherent(st) && i < NBUF && st.bufs[i].valid && st.bufs[i].locked
    requires st.bufs[i].dirty || st.bufs[i].data == st.disk[st.bufs[i].blockno]
    ensures var st' := BrelseStep(st, i);
            Coherent(st') && st'.disk == st.disk && Contents(st') == Contents(st) &&
            forall x :: Pinned(st', x) <==> Pinned(st, x)
  {
    var st' := BrelseStep(st, i);
    MoveToFrontPermutes(st.order, i);
    forall x: nat | x < |st.disk|
      ensures View(st', x) == View(st, x)
    {
      if j :| 0 <= j < NBUF && Holds(st.bufs[j], x) {
        ViewOf(st, j);
        ViewOf(st', j);
      }
    }
    forall x
      ensures Pinned(st', x) <==> Pinned(st, x)
    {
      if j :| 0 <= j < NBUF && st.bufs[j].dirty && st.bufs[j].blockno == x {
        assert st'.bufs[j].dirty && st'.bufs[j].blockno == x;
      }
    }
  }

  // ---------------------------------------------------------------- the code

  function Entries(s: seq<Buf>): (r: seq<Entry>)
    requires |s| == NBUF + 1
  {
    seq(NBUF, i requires 0 <= i < NBUF => s[i].e)
  }

  /** Take a buffer off the list. */
  method Unthread(buf: array<Buf>, b: nat)
    requires b < buf.Length && buf[b].next < buf.Length && buf[b].prev < buf.Length
    modifies buf
    ensures buf[..] == Unlink(old(buf[..]), b)
  {
    var n, p := buf[b].next, buf[b].prev;
    buf[n] := buf[n].(prev := p);
    buf[p] := buf[p].(next := n);
  }

  /** Put a buffer behind the list head. */
  method ThreadFront(buf: array<Buf>, b: nat)
    requires b < HEAD < buf.Length && buf[HEAD].next < buf.Length && buf[HEAD].next != b
    modifies buf
    ensures buf[..] == PushFront(old(buf[..]), b)
  {
    var f := buf[HEAD].next;
    buf[b] := buf[b].(next := f, prev := HEAD);
    buf[f] := buf[f].(prev := b);
    buf[HEAD] := buf[HEAD].(next := b);
  }

  class Bcache {
    var buf: array<Buf>
    var memdisk: array<Block>
    ghost var order: seq<nat>
    ghost var writes: seq<(nat, Block)> // every disk write so far, oldest first

    ghost predicate Valid()
      reads this, buf
    {
      buf.Length == NBUF + 1 && Permutation(order) && Linked(buf[..], order)
    }

    ghost function Abs(): Store
      requires Valid()
      reads this, buf, memdisk
    {
      Store(Entries(buf[..]), order, memdisk[..])
    }

    /** binit */
    constructor (disk: array<Block>, zero: Block)
      ensures Valid() && fresh(buf) && memdisk == disk && writes == []
      ensures Abs().bufs == seq(NBUF, i => Entry(false, false, 0, 0, 0, false, zero))
      ensures forall k: nat :: k < NBUF ==> Abs().order[k] == NBUF - 1 - k
    {
      var e := Entry(false, false, 0, 0, 0, false, zero);
      buf := new Buf[NBUF + 1](i => Buf(e, HEAD, HEAD));
      order := [];
      memdisk := disk;
      writes := [];
      new;
      var b := 0;
      while b < NBUF
        invariant b <= NBUF && buf.Length == NBUF + 1 && fresh(buf) && memdisk == disk && writes == []
        invariant |order| == b && forall k: nat :: k < b ==> order[k] == b - 1 - k
        invariant Linked(buf[..], order)
        invariant forall i :: 0 <= i < NBUF ==> buf[i].e == e
      {
        PushLinked(buf[..], order, b);
        ThreadFront(buf, b);
        order := [b] + order;
        b := b + 1;
      }
      forall i: nat | i < NBUF
        ensures i in order
      {
        assert order[NBUF - 1 - i] == i;
      }
    }

    /** bget's first scan, from the front of the list; HEAD when the block is not cached. */
    method Find(dev: nat, blockno: nat) returns (b: nat)
      requires Valid()
      ensures if Cached(Abs(), dev, blockno) then b < NBUF && Hit(Abs(), dev, blockno, b) else b == HEAD
    {
      ghost var st, k := Abs(), 0;
      b := buf[HEAD].next;
      while b != HEAD
        invariant 0 <= k <= NBUF && b == At(order, k)
        invariant forall j: nat :: j < k ==> !Matches(st.bufs[order[j]], dev, blockno)
        decreases NBUF - k
      {
        if buf[b].e.dev == dev && buf[b].e.blockno == blockno {
          assert Matches(st.bufs[order[k]], dev, blockno);
          return;
        }
        assert LinkAt(buf[..], order, k);
        b := buf[b].next;
        k := k + 1;
      }
      forall i: nat | i < NBUF
        ensures !Matches(st.bufs[i], dev, blockno)
      {
        assert order[Position(order, i)] == i;
      }
    }

    /** bget's second scan, from the tail of the list; HEAD when no buffer is free. */
    method FindFree() returns (b: nat)
      requires Valid()
      ensures if HasFree(Abs()) then b < NBUF && Victim(Abs(), b) else b == HEAD
    {
      ghost var st, k := Abs(), NBUF - 1;
      b := buf[HEAD].prev;
      while b != HEAD
        invariant -1 <= k < NBUF && b == At(order, k)
        invariant forall j: nat :: k < j < NBUF ==> !Free(st.bufs[order[j]])
        decreases k
      {
        if buf[b].e.refcnt == 0 && !buf[b].e.dirty {
          assert Free(st.bufs[order[k]]);
          return;
        }
        assert LinkAt(buf[..], order, k);
        b := buf[b].prev;
        k := k - 1;
      }
      forall i: nat | i < NBUF
        ensures !Free(st.bufs[i])
      {
        assert order[Position(order, i)] == i;
      }
    }

    /** bget until bcache.lock is released; `ok` is false where the kernel panics with no buffers. */
    method Bget(dev: nat, blockno: nat) returns (ok: bool, b: nat)
      requires Valid()
      modifies buf
      ensures Valid() && order == old(order)
      ensures ok == (Cached(old(Abs()), dev, blockno) || HasFree(old(Abs())))
      ensures ok ==> GetStep(old(Abs()), dev, blockno, Abs(), b)
      ensures !ok ==> Abs() == old(Abs())
    {
      hide Hit, Victim, Cached, HasFree, Linked;
      b := Find(dev, blockno);
      if b != HEAD {
        SetEntry(b, buf[b].e.(refcnt := buf[b].e.refcnt + 1));
        return true, b;
      }
      b := FindFree();
      ok := b != HEAD;
      if ok {
        SetEntry(b, buf[b].e.(dev := dev, blockno := blockno, valid := false, refcnt := 1));
      }
    }

    /** Set the contents of one buffer; every caller-side change of a `struct buf` goes through here. */
    method SetEntry(b: nat, e: Entry)
      requires Valid() && b < NBUF
      modifies buf
      ensures Valid() && order == old(order)
      ensures Abs() == WithEntry(old(Abs()), b, e)
    {
      ghost var s := buf[..];
      buf[b] := buf[b].(e := e);
      assert buf[..] == s[b := s[b].(e := e)];
      SameLinks(s, buf[..], order);
      assert Entries(buf[..]) == Entries(s)[b := e];
    }

    /** iderw; `ok` is false where it panics. */
    method Iderw(b: nat) returns (ok: bool)
      requires Valid() && b < NBUF
      modifies this`writes, buf, memdisk
      ensures Valid() && order == old(order)
      ensures var e := old(Abs()).bufs[b];
              ok == !IdePanics(e, |old(Abs()).disk|) &&
              (ok <==> e.locked && (!e.valid || e.dirty) && e.dev == DISK && e.blockno < |old(Abs()).disk|)
      ensures ok ==> Abs() == IdeStep(old(Abs()), b)
      ensures writes == if ok && old(buf[b].e.dirty) then old(writes) + [old((buf[b].e.blockno, buf[b].e.data))]
              else old(writes)
      ensures !ok ==> Abs() == old(Abs())
    {
      var e := buf[b].e;
      assert Abs().bufs[b] == e;
      if !e.locked || (e.valid && !e.dirty) || e.dev != DISK || e.blockno >= memdisk.Length {
        return false;
      }
      if e.dirty {
        memdisk[e.blockno] := e.data;
        writes := writes + [(e.blockno, e.data)];
        SetEntry(b, e.(dirty := false, valid := true));
      } else {
        SetEntry(b, e.(data := memdisk[e.blockno], valid := true));
      }
      ok := true;
    }

    /** The bcache.lock section of brelse. */
    method Put(b: nat)
      requires Valid() && b < NBUF && buf[b].e.refcnt > 0
      modifies this`order, buf
      ensures Valid() && Abs() == PutStep(old(Abs()), b)
    {
      var e := buf[b].e;
      SetEntry(b, e.(refcnt := e.refcnt - 1));
      if e.refcnt == 1 {
        ghost var s := buf[..];
        ghost var k := Position(order, b);
        ghost var rest := RemoveAt(order, k);
        UnlinkLinked(s, order, k);
        PushLinked(Unlink(s, b), rest, b);
        MoveToFrontPermutes(order, b);
        Unthread(buf, b);
        ThreadFront(buf, b);
        order := [b] + rest;
        assert Entries(buf[..]) == Entries(s);
      }
    }

    /** bread of a block of the disk; `ok` is false where bget or iderw panics. The buffer's sleeplock
        must be free, as the caller would otherwise still be waiting for it. */
    method Bread(blockno: nat) returns (ok: bool, b: nat)
      requires Valid() && Coherent(Abs()) && Unlocked(Abs(), blockno)
      modifies this`writes, buf, memdisk
      ensures Valid() && order == old(order)
      ensures ok == ((Cached(old(Abs()), DISK, blockno) || HasFree(old(Abs()))) && blockno < |old(Abs()).disk|)
      ensures ok ==> BreadStep(old(Abs()), blockno, Abs(), b) && writes == old(writes)
    {
      ok, b := Bget(DISK, blockno);
      if !ok {
        return;
      }
      ghost var st1 := Abs();
      assert st1.bufs[b] == buf[b].e;
      SetEntry(b, buf[b].e.(locked := true));
      ghost var st2 := Abs();
      assert st2.bufs[b] == buf[b].e;
      if !buf[b].e.valid {
        ok := Iderw(b);
      }
    }

    /** memmove into a buffer, then bwrite; `ok` is false where bwrite or iderw panics. */
    method Bwrite(b: nat, d: Block) returns (ok: bool)
      requires Valid() && b < NBUF
      modifies this`writes, buf, memdisk
      ensures Valid() && order == old(order)
      ensures var e := old(Abs()).bufs[b]; ok == (e.locked && e.dev == DISK && e.blockno < |old(Abs()).disk|)
      ensures ok ==> Abs() == BwriteStep(old(Abs()), b, d) && writes == old(writes) + [(old(buf[b].e.blockno), d)]
      ensures !ok ==> Abs().disk == old(Abs()).disk && writes == old(writes)
    {
      assert Abs().bufs[b] == buf[b].e;
      if !buf[b].e.locked {
        return false;
      }
      SetEntry(b, buf[b].e.(data := d, dirty := true));
      assert Abs().bufs[b] == buf[b].e;
      ok := Iderw(b);
    }

    /** brelse; `ok` is false where it panics. */
    method Brelse(b: nat) returns (ok: bool)
      requires Valid() && b < NBUF && (Abs().bufs[b].locked ==> Abs().bufs[b].refcnt > 0)
      modifies this`order, buf
      ensures Valid() && ok == old(Abs()).bufs[b].locked
      ensures Abs() == if ok then BrelseStep(old(Abs()), b) else old(Abs())
    {
      assert Abs().bufs[b] == buf[b].e;
      if !buf[b].e.locked {
        return false;
      }
      SetEntry(b, buf[b].e.(locked := false));
      assert Abs().bufs[b] == buf[b].e;
      Put(b);
      ok := true;
    }
  }
}
