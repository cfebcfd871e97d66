/** The kernel half of every address space: the table kmap of vm.c and what mapping it row by row builds. */
module VmKernel {
  import opened Basics
  import opened VmModel
  import opened VmSteps

  datatype Kmap = Kmap(virt: nat, start: nat, stop: nat, perm: nat)

  /** kmap, for a kernel whose writable data starts at frame kdata. */
  function Kmaps(kdata: nat): (rows: seq<Kmap>)
    ensures |rows| == 4
  {
    [Kmap(KERNBASE, 0, EXTMEM, PTE_W),
     Kmap(KERNBASE + EXTMEM, EXTMEM, kdata * PGSIZE, 0),
     Kmap(KERNBASE + kdata * PGSIZE, kdata * PGSIZE, PHYSTOP, PTE_W),
     Kmap(DEVSPACE, DEVSPACE, 0, PTE_W)]
  }

  /** The length of a row in 32-bit arithmetic. */
  function Size(row: Kmap): nat
    requires row.start < UINT && row.stop < UINT
  {
    (row.stop + UINT - row.start) % UINT
  }

  predicate DataPage(kdata: nat) {
    EXTMEM / PGSIZE < kdata < NFRAMES
  }

  /** First page and number of pages of row j. */
  function Low(kdata: nat, j: nat): nat
    requires j < 4
  {
    Kmaps(kdata)[j].virt / PGSIZE
  }

  function Count(kdata: nat, j: nat): nat
    requires DataPage(kdata) && j < 4
  {
    Span(Kmaps(kdata)[j].virt, Size(Kmaps(kdata)[j]))
  }

  lemma RowIs(kdata: nat, j: nat)
    requires DataPage(kdata) && j < 4
    ensures var row := Kmaps(kdata)[j];
            0 < Size(row) && row.virt + Size(row) <= UINT && row.start % PGSIZE == 0 && row.start < UINT &&
            row.stop < UINT && row.perm < PGSIZE &&
            row.start / PGSIZE + Count(kdata, j) <= 0x10_0000 && UPAGES <= Low(kdata, j) && 0 < Count(kdata, j) &&
            Low(kdata, j) + Count(kdata, j) <= VPAGES
    ensures Low(kdata, j) == [UPAGES, UPAGES + 256, UPAGES + kdata, 0xF_E000][j]
    ensures Count(kdata, j) == [256, kdata - 256, NFRAMES - kdata, 0x2000][j]
    ensures Kmaps(kdata)[j].start / PGSIZE == [0, 256, kdata, 0xF_E000][j]
  {
  }

  /** The entry for page v once the first j rows are mapped. */
  function RowEntry(kdata: nat, j: nat, v: nat): word
    requires DataPage(kdata) && j <= 4
  {
    if j == 0 then 0
    else
      RowIs(kdata, j - 1);
      var row := Kmaps(kdata)[j - 1];
      if Low(kdata, j - 1) <= v < Low(kdata, j - 1) + Count(kdata, j - 1) then
        Entry(row.start / PGSIZE + (v - Low(kdata, j - 1)), row.perm)
      else RowEntry(kdata, j - 1, v)
  }

  /** The kernel's view of memory: all of physical memory above KERNBASE, read-only up to kdata, and the devices. */
  function KernelEntry(kdata: nat, v: nat): word
    requires v < VPAGES
  {
    if UPAGES <= v < UPAGES + NFRAMES then
      Entry(v - UPAGES, if EXTMEM / PGSIZE <= v - UPAGES < kdata then 0 else PTE_W)
    else if DEVSPACE / PGSIZE <= v then Entry(v, PTE_W)
    else 0
  }

  lemma KernelMap(kdata: nat, v: nat)
    requires DataPage(kdata) && v < VPAGES
    ensures RowEntry(kdata, 4, v) == KernelEntry(kdata, v)
  {
    RowIs(kdata, 0);
    RowIs(kdata, 1);
    RowIs(kdata, 2);
    RowIs(kdata, 3);
    hide Low, Count;
    assert RowEntry(kdata, 1, v) == if UPAGES <= v < UPAGES + 256 then Entry(v - UPAGES, PTE_W) else 0;
    assert RowEntry(kdata, 2, v) == if UPAGES + 256 <= v < UPAGES + kdata then Entry(v - UPAGES, 0)
      else RowEntry(kdata, 1, v);
    assert RowEntry(kdata, 3, v) == if UPAGES + kdata <= v < UPAGES + NFRAMES then Entry(v - UPAGES, PTE_W)
      else RowEntry(kdata, 2, v);
  }

  /** Directory entries the first j rows need. */
  predicate RowDir(kdata: nat, j: nat, i: nat)
    requires DataPage(kdata) && j <= 4
  {
    j > 0 && (RowDir(kdata, j - 1, i) ||
              Low(kdata, j - 1) / ENTRIES <= i <= (Low(kdata, j - 1) + Count(kdata, j - 1) - 1) / ENTRIES)
  }

  /** The directory entries in use in an address space that has u tables for user pages. */
  predicate InUse(u: nat, i: nat) {
    i < u || 512 <= i < 568 || 1016 <= i < 1024
  }

  lemma RowDirs(kdata: nat, i: nat)
    requires DataPage(kdata) && i < ENTRIES
    ensures RowDir(kdata, 4, i) <==> InUse(0, i)
  {
    RowIs(kdata, 0);
    RowIs(kdata, 1);
    RowIs(kdata, 2);
    RowIs(kdata, 3);
    hide Low, Count;
    assert RowDir(kdata, 1, i) <==> i == 512;
    assert RowDir(kdata, 2, i) <==> i == 512 || 512 <= i <= (UPAGES + kdata - 1) / ENTRIES;
    assert RowDir(kdata, 3, i) <==> 512 <= i < 568;
  }

  /** Tables in use among the first k. */
  function InUseCount(u: nat, k: nat): nat {
    (if k < u then k else u) + (if k < 512 then 0 else if k < 568 then k - 512 else 56) + if k < 1016 then 0
      else k - 1016
  }

  lemma {:induction false} TabsInUse(p: Page, u: nat, k: nat)
    requires u <= 512 && k <= ENTRIES && forall i: nat :: i < k && Present(p[i]) ==> InUse(u, i)
    ensures Tabs(p, k) <= InUseCount(u, k)
    ensures (forall i: nat :: i < k && InUse(u, i) ==> Present(p[i])) <==> Tabs(p, k) == InUseCount(u, k)
  {
    if k > 0 {
      TabsInUse(p, u, k - 1);
    }
  }

  /** A new directory d after the first j rows: its mappings, its tables, and nothing owned before touched. */
  ghost predicate Built(kdata: nat, mem0: Memory, owner0: Owner, free0: nat, d: nat, j: nat, mem: Memory, owner: Owner,
      free: nat)
    requires DataPage(kdata) && j <= 4
  {
    d < NFRAMES && TablesAdded(owner0[d := Dir], owner, d) && AllKept(mem0, mem, owner0) &&
    free + Tabs(mem[d], ENTRIES) == free0 &&
    (forall v: nat :: v < VPAGES ==> Pte(mem, d, v) == RowEntry(kdata, j, v)) && forall i: nat :: i < ENTRIES ==>
      (Present(mem[d][i]) <==> RowDir(kdata, j, i))
  }

  lemma {:induction false} NoTabs(k: nat)
    requires k <= ENTRIES
    ensures Tabs(ZeroPage(), k) == 0
  {
    if k > 0 {
      NoTabs(k - 1);
    }
  }

  lemma BuiltNone(kdata: nat, mem0: Memory, owner0: Owner, d: nat, mem: Memory, free: nat)
    requires DataPage(kdata) && d < NFRAMES && d !in owner0 && mem == mem0[d := ZeroPage()]
    ensures Built(kdata, mem0, owner0, free, d, 0, mem, owner0[d := Dir], free)
  {
    NoTabs(ENTRIES);
  }

  /** A zeroed page that is merely held can become a directory. */
  lemma NewDir(mem: Memory, owner: Owner, d: nat)
    requires Tables(mem, owner) && d in owner && owner[d] == Held && mem[d] == ZeroPage()
    ensures Tables(mem, owner[d := Dir])
  {
    var owner' := owner[d := Dir];
    forall f | f in owner'
      ensures UseOk(mem, owner', f)
    {
      assert UseOk(mem, owner, f);
    }
    forall x: nat, i: nat | IsDir(owner', x) && x < NFRAMES && i < ENTRIES
      ensures EntryOk(mem, owner', x, i)
    {
      if x != d {
        assert EntryOk(mem, owner, x, i);
      }
    }
    forall x: nat, v: nat | IsDir(owner', x) && x < NFRAMES && v < VPAGES
      ensures PageOk(mem, owner', x, v)
    {
      if x != d {
        assert PageOk(mem, owner, x, v);
      }
    }
  }

  /** The pages of row j are not mapped by the rows before it. */
  lemma RowsApart(kdata: nat, j: nat, v: nat)
    requires DataPage(kdata) && j < 4 && Low(kdata, j) <= v < Low(kdata, j) + Count(kdata, j)
    ensures RowEntry(kdata, j, v) == 0
  {
    RowIs(kdata, 0);
    RowIs(kdata, 1);
    RowIs(kdata, 2);
    RowIs(kdata, 3);
    hide Low, Count;
    assert RowEntry(kdata, 1, v) == 0 || v < UPAGES + 256;
    assert RowEntry(kdata, 2, v) == 0 || v < UPAGES + kdata;
    assert RowEntry(kdata, 3, v) == 0 || v < UPAGES + NFRAMES;
  }

  /** Nothing in these owners has to do with frame d. */
  ghost predicate Foreign(owner: Owner, d: nat) {
    d !in owner && forall f :: f in owner ==> !Of(owner[f], d)
  }

  lemma NotIts(mem: Memory, owner: Owner, d: nat)
    requires Tables(mem, owner) && d !in owner
    ensures Foreign(owner, d)
  {
  }

  lemma GoneNew(owner0: Owner, owner: Owner, d: nat)
    requires Foreign(owner0, d) && TablesAdded(owner0[d := Dir], owner, d)
    ensures Gone(owner, d) == owner0
  {
  }

  /** No page of row j is mapped yet, so mapping the row cannot panic. */
  lemma RowFree(kdata: nat, mem0: Memory, owner0: Owner, free0: nat, d: nat, j: nat, mem: Memory, owner: Owner,
      free: nat)
    requires DataPage(kdata) && j < 4 && Built(kdata, mem0, owner0, free0, d, j, mem, owner, free)
    ensures forall y: nat :: Low(kdata, j) <= y < Low(kdata, j) + Count(kdata, j) && y < VPAGES ==>
            !Present(Pte(mem, d, y))
    ensures UPAGES <= Low(kdata, j) && HeldRange(owner, Low(kdata, j), Count(kdata, j), Kmaps(kdata)[j].start / PGSIZE)
  {
    RowIs(kdata, j);
    hide Low, Count, Pte, RowEntry;
    forall y: nat | Low(kdata, j) <= y < Low(kdata, j) + Count(kdata, j) && y < VPAGES
      ensures !Present(Pte(mem, d, y))
    {
      RowsApart(kdata, j, y);
    }
  }

  lemma BuiltNext(kdata: nat, mem0: Memory, owner0: Owner, free0: nat, d: nat, j: nat, mem: Memory, owner: Owner,
      free: nat,
                  done: nat, mem': Memory, owner': Owner, free': nat)
    requires DataPage(kdata) && j < 4 && Foreign(owner0, d) && Built(kdata, mem0, owner0, free0, d, j, mem, owner, free)
    requires done <= Count(kdata, j) && Kmaps(kdata)[j].perm < PGSIZE &&
             Kmaps(kdata)[j].start / PGSIZE + Count(kdata, j) <= 0x10_0000
    requires Progress(mem, owner, free, d, Low(kdata, j), done, Kmaps(kdata)[j].start / PGSIZE, Kmaps(kdata)[j].perm,
               mem', owner', free')
    ensures TablesAdded(owner0[d := Dir], owner', d) && AllKept(mem0, mem', owner0) &&
            free' + Tabs(mem'[d], ENTRIES) == free0
    ensures done == Count(kdata, j) ==> Built(kdata, mem0, owner0, free0, d, j + 1, mem', owner', free')
  {
    RowIs(kdata, j);
    BuiltOwners(kdata, mem0, owner0, d, j, mem, owner, done, Kmaps(kdata)[j].start / PGSIZE, mem', owner');
    if done == Count(kdata, j) {
      assert IsDir(owner, d);
      hide Pte, Tabs, Low, Count, Kmaps;
      assert DirGrown(mem[d], mem'[d], Low(kdata, j), done);
    }
  }

  lemma BuiltOwners(kdata: nat, mem0: Memory, owner0: Owner, d: nat, j: nat, mem: Memory, owner: Owner, done: nat,
      f0: nat, mem': Memory, owner': Owner)
    requires DataPage(kdata) && j < 4 && TablesAdded(owner0[d := Dir], owner, d) && AllKept(mem0, mem, owner0) &&
             UPAGES <= Low(kdata, j)
    requires TablesAdded(MappedRange(owner, d, Low(kdata, j), done, f0), owner', d) && Kept(mem, mem', owner, d)
    requires Foreign(owner0, d)
    ensures TablesAdded(owner0[d := Dir], owner', d) && AllKept(mem0, mem', owner0)
  {
  }

  /** When a row cannot be finished for want of memory, fewer than the 64 tables had been made. */
  lemma RowFails(kdata: nat, mem0: Memory, owner0: Owner, free0: nat, d: nat, j: nat, mem: Memory, owner: Owner,
      free: nat,
                 done: nat, mem': Memory, owner': Owner, free': nat)
    requires DataPage(kdata) && j < 4 && d !in owner0 && Built(kdata, mem0, owner0, free0, d, j, mem, owner, free)
    requires done < Count(kdata, j) && Kmaps(kdata)[j].perm < PGSIZE &&
             Kmaps(kdata)[j].start / PGSIZE + Count(kdata, j) <= 0x10_0000
    requires Progress(mem, owner, free, d, Low(kdata, j), done, Kmaps(kdata)[j].start / PGSIZE, Kmaps(kdata)[j].perm,
               mem', owner', free')
    requires Low(kdata, j) + done < VPAGES && !Present(mem'[d][(Low(kdata, j) + done) / ENTRIES]) && free' == 0
    ensures free0 < 64
  {
    RowIs(kdata, j);
    hide Low, Count, Kmaps, Pte;
    forall i: nat | i < ENTRIES && Present(mem'[d][i])
      ensures InUse(0, i)
    {
      RowDirs(kdata, i);
      RowLater(kdata, j, i);
    }
    var i := (Low(kdata, j) + done) / ENTRIES;
    RowDirs(kdata, i);
    RowLater(kdata, j, i);
    TabsInUse(mem'[d], 0, ENTRIES);
  }

  lemma RowLater(kdata: nat, j: nat, i: nat)
    requires DataPage(kdata) && j < 4 && i < ENTRIES
    ensures RowDir(kdata, j, i) || Low(kdata, j) / ENTRIES <= i <= (Low(kdata, j) + Count(kdata, j) - 1) / ENTRIES ==>
            RowDir(kdata, 4, i)
  {
  }

  /** What setupkvm builds: the kernel mappings, no user page, and 64 tables. */
  lemma BuiltAll(kdata: nat, mem0: Memory, owner0: Owner, free0: nat, d: nat, mem: Memory, owner: Owner, free: nat)
    requires DataPage(kdata) && Built(kdata, mem0, owner0, free0, d, 4, mem, owner, free)
    ensures (forall v: nat :: v < VPAGES ==> Pte(mem, d, v) == KernelEntry(kdata, v)) && free0 == free + 64
    ensures forall i: nat :: i < ENTRIES ==> (Present(mem[d][i]) <==> InUse(0, i))
    ensures TablesAdded(owner0[d := Dir], owner, d) && AllKept(mem0, mem, owner0)
  {
    hide Pte, KernelEntry;
    forall v: nat | v < VPAGES
      ensures Pte(mem, d, v) == KernelEntry(kdata, v)
    {
      KernelMap(kdata, v);
    }
    forall i: nat | i < ENTRIES
      ensures Present(mem[d][i]) <==> InUse(0, i)
    {
      RowDirs(kdata, i);
    }
    TabsInUse(mem[d], 0, ENTRIES);
  }
}
