/** What the steps of kalloc.c and vm.c do to the free list, the mappings and the owners, on values. */
module VmSteps {
  import opened Basics
  import opened VmModel

  const EXTMEM: nat := 0x10_0000
  const DEVSPACE: nat := 0xFE00_0000
  const UINT: nat := 0x1_0000_0000

  function PgRoundUp(a: nat): nat {
    (a + PGSIZE - 1) / PGSIZE * PGSIZE
  }

  /** Pages that hold the first a bytes. */
  function Pages(a: nat): nat {
    (a + PGSIZE - 1) / PGSIZE
  }

  /** The pages of the first a bytes are those that start below a. */
  lemma PagesIff(y: nat, a: nat)
    ensures y < Pages(a) <==> y * PGSIZE < a
  {
  }

  // ---------------------------------------------------------------- the free list

  /** The k-th pointer of the list: kmem.freelist itself, then the word at the start of each free page. */
  function Ptr(free: seq<nat>, k: nat): nat {
    if k < |free| then KERNBASE + free[k] * PGSIZE else 0
  }

  ghost predicate LinkAt(mem: Memory, free: seq<nat>, k: nat)
    requires k < |free|
  {
    0 < free[k] < NFRAMES && mem[free[k]][0] == Ptr(free, k + 1)
  }

  ghost predicate Lists(mem: Memory, freelist: word, free: seq<nat>) {
    freelist == Ptr(free, 0) && (forall k: nat :: k < |free| ==> LinkAt(mem, free, k)) &&
    forall j: nat, k: nat :: j < k < |free| ==> free[j] != free[k]
  }

  /** Frames the allocator manages: from the end of the kernel to the top of memory. */
  predicate Managed(end: nat, f: nat) {
    end <= KERNBASE + f * PGSIZE && f < NFRAMES
  }

  /** Conservation: every managed frame is free or has one owner, never both. */
  ghost predicate Whole(end: nat, free: seq<nat>, owner: Owner) {
    KERNBASE + PGSIZE <= end && (forall f: nat :: Managed(end, f) <==> f in free || f in owner) &&
    forall f :: f in free ==> f !in owner
  }

  lemma ListsKept(mem: Memory, mem': Memory, freelist: word, free: seq<nat>)
    requires Lists(mem, freelist, free) && forall f :: f in free && f < NFRAMES ==> mem'[f] == mem[f]
    ensures Lists(mem', freelist, free)
  {
    forall k: nat | k < |free|
      ensures LinkAt(mem', free, k)
    {
      assert LinkAt(mem, free, k);
    }
  }

  lemma Popped(mem: Memory, freelist: word, free: seq<nat>)
    requires Lists(mem, freelist, free) && free != []
    ensures 0 < free[0] < NFRAMES && free[0] !in free[1..] && freelist == KERNBASE + free[0] * PGSIZE
    ensures Lists(mem, mem[free[0]][0], free[1..])
  {
    assert LinkAt(mem, free, 0);
    forall k: nat | k < |free[1..]|
      ensures LinkAt(mem, free[1..], k)
    {
      assert LinkAt(mem, free, k + 1);
    }
  }

  lemma Pushed(mem: Memory, freelist: word, free: seq<nat>, f: nat, p: Page)
    requires Lists(mem, freelist, free) && 0 < f < NFRAMES && f !in free && p[0] == freelist
    ensures Lists(mem[f := p], KERNBASE + f * PGSIZE, [f] + free)
  {
    var free', mem' := [f] + free, mem[f := p];
    forall k: nat | k < |free'|
      ensures LinkAt(mem', free', k)
    {
      if k > 0 {
        assert LinkAt(mem, free, k - 1);
      }
    }
  }

  // ---------------------------------------------------------------- what changes and what does not

  /** Pages owned before, other than directory d and its tables, keep their contents. */
  ghost predicate Kept(mem: Memory, mem': Memory, owner: Owner, d: nat) {
    forall f :: f in owner && f < NFRAMES && f != d && !(owner[f].Table? && owner[f].d == d) ==> mem'[f] == mem[f]
  }

  /** The owners after some tables of directory d have been added. */
  ghost predicate TablesAdded(owner: Owner, owner': Owner, d: nat) {
    (forall f :: f in owner ==> f in owner' && owner'[f] == owner[f]) &&
    forall f :: f in owner' && f !in owner ==> owner'[f].Table? && owner'[f].d == d
  }

  /** Present entries among the first k of a directory. */
  function Tabs(p: Page, k: nat): nat
    requires k <= ENTRIES
  {
    if k == 0 then 0 else Tabs(p, k - 1) + if Present(p[k - 1]) then 1 else 0
  }

  lemma {:induction false} TabsOne(p: Page, i: nat, e: word, k: nat)
    requires k <= ENTRIES && i < ENTRIES && !Present(p[i]) && Present(e)
    ensures Tabs(p[i := e], k) == Tabs(p, k) + if i < k then 1 else 0
  {
    if k > 0 {
      TabsOne(p, i, e, k - 1);
    }
  }

  ghost predicate AllKept(mem: Memory, mem': Memory, owner: Owner) {
    forall f :: f in owner && f < NFRAMES ==> mem'[f] == mem[f]
  }

  predicate Of(u: Use, d: nat) {
    (u.Table? || u.Data?) && u.d == d
  }

  /** The owners without directory d and all that belongs to it. */
  ghost function Gone(owner: Owner, d: nat): Owner {
    map f | f in owner && f != d && !Of(owner[f], d) :: owner[f]
  }

  /** Directory d taken out of use: it and its tables are merely held, and the first k tables are freed already. */
  ghost function Retired(owner: Owner, d: nat, k: nat): Owner {
    map f | f in owner && !(owner[f].Table? && owner[f].d == d && owner[f].i < k) :: if f == d ||
    Of(owner[f], d) then Held else owner[f]
  }

  lemma RetiredTables(mem: Memory, owner: Owner, d: nat)
    requires Tables(mem, owner) && IsDir(owner, d) && forall f :: f in owner && owner[f].Data? ==> owner[f].d != d
    ensures Tables(mem, Retired(owner, d, 0))
  {
    hide Pte;
    var owner' := Retired(owner, d, 0);
    forall f | f in owner'
      ensures UseOk(mem, owner', f)
    {
      assert UseOk(mem, owner, f);
    }
    forall x: nat, i: nat | IsDir(owner', x) && x < NFRAMES && i < ENTRIES
      ensures EntryOk(mem, owner', x, i)
    {
      assert EntryOk(mem, owner, x, i);
    }
    forall x: nat, v: nat | IsDir(owner', x) && x < NFRAMES && v < VPAGES
      ensures PageOk(mem, owner', x, v)
    {
      assert PageOk(mem, owner, x, v);
    }
  }

  lemma RetiredWhole(end: nat, free: seq<nat>, owner: Owner, d: nat)
    requires Whole(end, free, owner)
    ensures Whole(end, free, Retired(owner, d, 0))
  {
  }

  lemma RetiredNext(mem: Memory, owner: Owner, d: nat, i: nat)
    requires Tables(mem, owner) && IsDir(owner, d) && i < ENTRIES && d < NFRAMES
    ensures d in Retired(owner, d, i) && Retired(owner, d, i)[d] == Held
    ensures if Present(mem[d][i])
            then var f := Frame(mem[d][i]);
                 f in Retired(owner, d, i) && Retired(owner, d, i)[f] == Held &&
                 Retired(owner, d, i) - {f} == Retired(owner, d, i + 1)
            else Retired(owner, d, i) == Retired(owner, d, i + 1)
  {
    hide Pte;
    assert EntryOk(mem, owner, d, i);
    forall f | f in owner && owner[f] == Table(d, i)
      ensures Present(mem[d][i]) && f == Frame(mem[d][i])
    {
      assert UseOk(mem, owner, f);
    }
  }

  lemma GoneIs(mem: Memory, owner: Owner, d: nat)
    requires Tables(mem, owner)
    ensures var owner1 := Dropped(owner, d, Pages(0), Pages(KERNBASE));
            (forall f :: f in owner1 && owner1[f].Data? ==> owner1[f].d != d) &&
              Retired(owner1, d, ENTRIES) - {d} == Gone(owner, d)
  {
  }

  /** The owners without the user pages lo to hi of directory d. */
  ghost function Dropped(owner: Owner, d: nat, lo: nat, hi: nat): Owner {
    map f | f in owner && !(owner[f].Data? && owner[f].d == d && lo <= owner[f].v < hi) :: owner[f]
  }

  /** Pages lo to hi of directory d are not mapped; everything else is mapped as before. */
  ghost predicate Unmapped(mem: Memory, mem': Memory, owner: Owner, d: nat, lo: nat, hi: nat) {
    forall x: nat, y: nat :: IsDir(owner, x) && x < NFRAMES && y < VPAGES ==>
      if x == d && lo <= y < hi then !Present(Pte(mem', x, y)) else Pte(mem', x, y) == Pte(mem, x, y)
  }

  lemma FreedTables(mem: Memory, owner: Owner, d: nat, v: nat, t: nat, f: nat, p: Page)
    requires Tables(mem, owner) && IsDir(owner, d) && d < NFRAMES && v < UPAGES && t in owner && t < NFRAMES &&
             owner[t] == Table(d, v / ENTRIES)
    requires Present(Pte(mem, d, v)) && f == Frame(Pte(mem, d, v)) && f < NFRAMES
    ensures f in owner && owner[f] == Data(d, v)
    ensures Tables(WithPte(mem[f := p], t, v % ENTRIES, 0), owner - {f})
    ensures OneMap(mem, WithPte(mem[f := p], t, v % ENTRIES, 0), owner - {f}, d, v, 0)
  {
    UnmapTables(mem, owner, d, v, t);
    WithPteMaps(mem, owner, d, v, t, 0);
    var mem1 := WithPte(mem, t, v % ENTRIES, 0);
    GivenUp(mem1, owner[f := Held], f);
    assert owner[f := Held] - {f} == owner - {f};
    PlainWrite(mem1, owner - {f}, f, p);
    assert mem1[f := p] == WithPte(mem[f := p], t, v % ENTRIES, 0);
    hide Pte, Tables;
  }

  lemma UnmapNone(mem: Memory, owner: Owner, d: nat, lo: nat, hi: nat)
    requires hi <= lo
    ensures Unmapped(mem, mem, owner, d, lo, hi) && owner == Dropped(owner, d, lo, hi) && Kept(mem, mem, owner, d)
  {
  }

  lemma UnmapAbsent(mem0: Memory, mem: Memory, owner0: Owner, owner: Owner, d: nat, lo: nat, v: nat, v': nat)
    requires Tables(mem, owner) && owner == Dropped(owner0, d, lo, v) && lo <= v <= v' && d < NFRAMES &&
             Unmapped(mem0, mem, owner, d, lo, v)
    requires forall y: nat :: v <= y < v' && y < VPAGES ==> !Present(Pte(mem, d, y))
    ensures owner == Dropped(owner0, d, lo, v') && Unmapped(mem0, mem, owner, d, lo, v')
  {
  }

  /** The first page of the table after that of v, or hi if that comes first. */
  function NextTable(v: nat, hi: nat): nat {
    if (v / ENTRIES + 1) * ENTRIES < hi then (v / ENTRIES + 1) * ENTRIES else hi
  }

  /** A missing table means that none of its pages is mapped, so the jump to the next table misses none. */
  lemma SkipTable(mem0: Memory, mem: Memory, owner0: Owner, owner: Owner, d: nat, lo: nat, v: nat, hi: nat)
    requires Tables(mem, owner) && owner == Dropped(owner0, d, lo, v) && lo <= v < hi <= UPAGES && d < NFRAMES &&
             Unmapped(mem0, mem, owner, d, lo, v)
    requires !Present(mem[d][v / ENTRIES])
    ensures owner == Dropped(owner0, d, lo, NextTable(v, hi)) && Unmapped(mem0, mem, owner, d, lo, NextTable(v, hi))
  {
  }

  lemma UnmapNext(mem0: Memory, owner0: Owner, d: nat, lo: nat, v: nat, mem1: Memory, owner1: Owner, mem2: Memory,
      owner2: Owner)
    requires lo <= v < UPAGES && Tables(mem1, owner1) && owner1 == Dropped(owner0, d, lo, v) &&
             Unmapped(mem0, mem1, owner1, d, lo, v)
    requires Kept(mem0, mem1, owner1, d) && Kept(mem1, mem2, owner2, d) && d < NFRAMES &&
             Frame(Pte(mem1, d, v)) in owner1
    requires owner1[Frame(Pte(mem1, d, v))] == Data(d, v) && owner2 == owner1 - {Frame(Pte(mem1, d, v))} &&
             OneMap(mem1, mem2, owner2, d, v, 0)
    ensures owner2 == Dropped(owner0, d, lo, v + 1) && Unmapped(mem0, mem2, owner2, d, lo, v + 1) &&
            Kept(mem0, mem2, owner2, d)
  {
    hide Pte;
    forall f | f in owner1 && owner1[f] == Data(d, v)
      ensures f == Frame(Pte(mem1, d, v))
    {
      assert UseOk(mem1, owner1, f);
    }
  }

  /** Pages touched by `size` bytes from va on. */
  function Span(va: nat, size: nat): nat
    requires 0 < size
  {
    (va + size - 1) / PGSIZE - va / PGSIZE + 1
  }

  /** User pages among the n from v0 on are given held frames, from f0 on. */
  ghost predicate HeldRange(owner: Owner, v0: nat, n: nat, f0: nat) {
    forall f: nat :: f0 <= f < f0 + n && v0 + (f - f0) < UPAGES ==> f in owner && owner[f] == Held
  }

  ghost function MappedRange(owner: Owner, d: nat, v0: nat, n: nat, f0: nat): Owner {
    map f | f in owner :: if f0 <= f < f0 + n && v0 + (f - f0) < UPAGES then Data(d, v0 + (f - f0)) else owner[f]
  }

  ghost predicate Ranged(mem: Memory, mem': Memory, owner: Owner, d: nat, v0: nat, n: nat, f0: nat, perm: nat)
    requires f0 + n <= 0x10_0000 && perm < PGSIZE
  {
    forall x: nat, y: nat :: IsDir(owner, x) && x < NFRAMES && y < VPAGES ==>
      Pte(mem', x, y) == if x == d && v0 <= y < v0 + n then Entry(f0 + (y - v0), perm) else Pte(mem, x, y)
  }

  /** A directory has gained exactly the tables that pages v0 to v0 + n need. */
  ghost predicate DirGrown(p: Page, p': Page, v0: nat, n: nat) {
    forall i: nat :: i < ENTRIES ==> (Present(p'[i]) <==>
        Present(p[i]) || (n > 0 && v0 / ENTRIES <= i <= (v0 + n - 1) / ENTRIES))
  }

  /** What mappages has done after n pages: the mappings, the owners, the tables made, and nothing else. */
  ghost predicate Progress(mem: Memory, owner: Owner, free: nat, d: nat, v0: nat, n: nat, f0: nat, perm: nat,
      mem': Memory, owner': Owner, free': nat)
    requires d < NFRAMES && f0 + n <= 0x10_0000 && perm < PGSIZE
  {
    Ranged(mem, mem', owner, d, v0, n, f0, perm) && TablesAdded(MappedRange(owner, d, v0, n, f0), owner', d) &&
    Kept(mem, mem', owner, d) &&
    DirGrown(mem[d], mem'[d], v0, n) && free' + Tabs(mem'[d], ENTRIES) == free + Tabs(mem[d], ENTRIES)
  }

  lemma ProgressNone(mem: Memory, owner: Owner, free: nat, d: nat, v0: nat, f0: nat, perm: nat)
    requires d < NFRAMES && f0 <= 0x10_0000 && perm < PGSIZE
    ensures Progress(mem, owner, free, d, v0, 0, f0, perm, mem, owner, free)
  {
  }

  lemma ProgressDir(mem: Memory, owner: Owner, free: nat, d: nat, v0: nat, n: nat, f0: nat, perm: nat, mem': Memory,
      owner': Owner, free': nat)
    requires d < NFRAMES && f0 + n <= 0x10_0000 && perm < PGSIZE &&
             Progress(mem, owner, free, d, v0, n, f0, perm, mem', owner', free')
    ensures DirGrown(mem[d], mem'[d], v0, n) && free' + Tabs(mem'[d], ENTRIES) == free + Tabs(mem[d], ENTRIES)
  {
  }

  lemma ProgressMeans(mem: Memory, owner: Owner, free: nat, d: nat, v0: nat, n: nat, k: nat, f0: nat, perm: nat,
      mem': Memory, owner': Owner, free': nat)
    requires IsDir(owner, d) && d < NFRAMES && f0 + n <= 0x10_0000 && perm < PGSIZE && k < n && v0 + n <= VPAGES &&
             HeldRange(owner, v0, n, f0)
    requires Progress(mem, owner, free, d, v0, k, f0, perm, mem', owner', free')
    ensures IsDir(owner', d) && (v0 + k < UPAGES ==> f0 + k in owner' && owner'[f0 + k] == Held)
    ensures Pte(mem', d, v0 + k) == Pte(mem, d, v0 + k)
  {
  }

  lemma ProgressNext(mem: Memory, owner: Owner, free: nat, d: nat, v0: nat, k: nat, f0: nat, perm: nat, mem1: Memory,
      owner1: Owner, free1: nat,
                     mem2: Memory, owner2: Owner, free2: nat)
    requires IsDir(owner, d) && d < NFRAMES && f0 + k < 0x10_0000 && perm < PGSIZE && v0 + k < VPAGES &&
             HeldRange(owner, v0, k + 1, f0)
    requires Progress(mem, owner, free, d, v0, k, f0, perm, mem1, owner1, free1)
    requires OneMap(mem1, mem2, owner1, d, v0 + k, Entry(f0 + k, perm)) &&
             TablesAdded(Mapped(owner1, d, v0 + k, Entry(f0 + k, perm)), owner2, d)
    requires Kept(mem1, mem2, owner1, d) && Hangs(mem2[d], mem1[d], (v0 + k) / ENTRIES) &&
             free2 + Tabs(mem2[d], ENTRIES) == free1 + Tabs(mem1[d], ENTRIES)
    ensures Progress(mem, owner, free, d, v0, k + 1, f0, perm, mem2, owner2, free2)
  {
    hide Tabs, Kept, TablesAdded, Ranged, OneMap, Hangs, DirGrown;
    OwnersNext(owner, d, v0, k, f0, perm, owner1, owner2);
    KeptNext(mem, owner, d, v0, k, f0, mem1, owner1, mem2);
    RangedNext(mem, owner, d, v0, k, f0, perm, mem1, owner1, mem2);
    GrownNext(mem[d], mem1[d], mem2[d], v0, k);
  }

  lemma RangedNext(mem: Memory, owner: Owner, d: nat, v0: nat, k: nat, f0: nat, perm: nat, mem1: Memory, owner1: Owner,
      mem2: Memory)
    requires f0 + k < 0x10_0000 && perm < PGSIZE && HeldRange(owner, v0, k + 1, f0)
    requires Ranged(mem, mem1, owner, d, v0, k, f0, perm) && TablesAdded(MappedRange(owner, d, v0, k, f0), owner1, d)
    requires OneMap(mem1, mem2, owner1, d, v0 + k, Entry(f0 + k, perm))
    ensures Ranged(mem, mem2, owner, d, v0, k + 1, f0, perm)
  {
  }

  lemma OwnersNext(owner: Owner, d: nat, v0: nat, k: nat, f0: nat, perm: nat, owner1: Owner, owner2: Owner)
    requires f0 + k < 0x10_0000 && perm < PGSIZE && HeldRange(owner, v0, k + 1, f0)
    requires TablesAdded(MappedRange(owner, d, v0, k, f0), owner1, d) &&
             TablesAdded(Mapped(owner1, d, v0 + k, Entry(f0 + k, perm)), owner2, d)
    ensures TablesAdded(MappedRange(owner, d, v0, k + 1, f0), owner2, d)
  {
  }

  lemma KeptNext(mem: Memory, owner: Owner, d: nat, v0: nat, k: nat, f0: nat, mem1: Memory, owner1: Owner, mem2: Memory)
    requires Kept(mem, mem1, owner, d) && TablesAdded(MappedRange(owner, d, v0, k, f0), owner1, d) &&
             Kept(mem1, mem2, owner1, d)
    ensures Kept(mem, mem2, owner, d)
  {
  }

  lemma GrownNext(p: Page, p1: Page, p2: Page, v0: nat, k: nat)
    requires v0 + k < VPAGES && DirGrown(p, p1, v0, k) && Hangs(p2, p1, (v0 + k) / ENTRIES)
    ensures DirGrown(p, p2, v0, k + 1)
  {
  }

  /** The entry walkpgdir points at is the one the two-level walk reads. */
  lemma TableEntry(mem: Memory, owner: Owner, d: nat, v: nat, t: nat)
    requires Tables(mem, owner) && v < VPAGES && t in owner && owner[t] == Table(d, v / ENTRIES)
    ensures t < NFRAMES && d < NFRAMES && IsDir(owner, d) && mem[t][v % ENTRIES] == Pte(mem, d, v) && t != d
  {
  }

  lemma DirEntry(mem: Memory, owner: Owner, d: nat, i: nat)
    requires Tables(mem, owner) && IsDir(owner, d) && i < ENTRIES
    ensures d < NFRAMES
    ensures Present(mem[d][i]) ==>
              var t := Frame(mem[d][i]);
              t in owner && owner[t] == Table(d, i) && t < NFRAMES && Writable(mem[d][i]) && User(mem[d][i])
  {
    DirInRange(mem, owner, d);
    assert EntryOk(mem, owner, d, i);
    if Present(mem[d][i]) {
      assert UseOk(mem, owner, Frame(mem[d][i]));
    }
  }

  function Pdx(va: nat): (i: nat)
    ensures va < UINT ==> i < ENTRIES
  {
    va / (PGSIZE * ENTRIES)
  }

  function Ptx(va: nat): (i: nat)
    ensures i < ENTRIES
  {
    va / PGSIZE % ENTRIES
  }

  /** Directory page p is p0 but that entry i is in use. */
  ghost predicate Hangs(p: Page, p0: Page, i: nat)
    requires i < ENTRIES
  {
    p == p0[i := p[i]] && Present(p[i]) && (Present(p0[i]) ==> p == p0)
  }

  lemma NullIffNone(mem: Memory, freelist: word, free: seq<nat>)
    requires Lists(mem, freelist, free)
    ensures freelist == 0 <==> free == []
  {
  }

  lemma PageIndex(v: nat)
    ensures v * PGSIZE / PGSIZE == v && Pdx(v * PGSIZE) == v / ENTRIES && Ptx(v * PGSIZE) == v % ENTRIES
    ensures v < VPAGES ==> v * PGSIZE < UINT
    ensures v < UPAGES <==> v * PGSIZE < KERNBASE
  {
  }

  lemma HeldLess(owner: Owner, v0: nat, n: nat, k: nat, f0: nat)
    requires HeldRange(owner, v0, n, f0) && k <= n
    ensures HeldRange(owner, v0, k, f0)
  {
  }

  /** Frame f lies wholly between two kernel addresses. */
  predicate WholePage(vstart: nat, vend: nat, f: nat) {
    vstart <= KERNBASE + f * PGSIZE && KERNBASE + (f + 1) * PGSIZE <= vend
  }

  /** The owners when freerange has got to frame q. */
  ghost function Freed(owner: Owner, vstart: nat, vend: nat, q: nat): Owner {
    map f | f in owner && !(WholePage(vstart, vend, f) && f < q) :: owner[f]
  }

  lemma FirstPage(vstart: nat, vend: nat)
    requires KERNBASE <= vstart
    ensures PgRoundUp(vstart) == KERNBASE + (vstart + PGSIZE - 1 - KERNBASE) / PGSIZE * PGSIZE
  {
  }

  lemma NextPage(owner: Owner, vstart: nat, vend: nat, q: nat)
    requires KERNBASE <= vstart && (vstart + PGSIZE - 1 - KERNBASE) / PGSIZE <= q && KERNBASE + (q + 1) * PGSIZE <= vend
    ensures WholePage(vstart, vend, q) && Freed(owner, vstart, vend, q + 1) == Freed(owner, vstart, vend, q) - {q}
    ensures q in owner ==> q in Freed(owner, vstart, vend, q) && Freed(owner, vstart, vend, q)[q] == owner[q]
  {
  }
}
