/** User memory on values: growing an address space page by page, and copying one for fork. */
module VmUser {
  import opened Basics
  import opened VmModel
  import opened VmSteps
  import opened VmKernel

  const RWU: nat := PTE_P + PTE_W + PTE_U

  // ---------------------------------------------------------------- growing

  ghost predicate FreshPage(mem: Memory, e: word) {
    Present(e) && e % PGSIZE == RWU && Frame(e) < NFRAMES && mem[Frame(e)] == ZeroPage()
  }

  /** What has come to be owned is part of directory d: tables, and pages lo to v. */
  ghost predicate GrewOwners(owner0: Owner, d: nat, lo: nat, v: nat, owner: Owner) {
    (forall f :: f in owner0 ==> f in owner && owner[f] == owner0[f]) &&
    forall f :: f in owner && f !in owner0 ==> Of(owner[f], d) && (owner[f].Data? ==> lo <= owner[f].v < v)
  }

  ghost predicate GrewMaps(mem0: Memory, owner0: Owner, d: nat, lo: nat, v: nat, mem: Memory) {
    forall x: nat, y: nat :: IsDir(owner0, x) && x < NFRAMES && y < VPAGES ==>
      if x == d && lo <= y < v then FreshPage(mem, Pte(mem, x, y)) else Pte(mem, x, y) == Pte(mem0, x, y)
  }

  /** Pages lo to v of directory d have been added, each a zeroed page of its own; all else is mapped as before. */
  ghost predicate Grew(mem0: Memory, owner0: Owner, d: nat, lo: nat, v: nat, mem: Memory, owner: Owner) {
    GrewOwners(owner0, d, lo, v, owner) && Kept(mem0, mem, owner0, d) && GrewMaps(mem0, owner0, d, lo, v, mem)
  }

  lemma GrewNone(mem: Memory, owner: Owner, d: nat, lo: nat)
    ensures Grew(mem, owner, d, lo, lo, mem, owner)
  {
  }

  /** Mapping the zeroed page f at page v (n is 1), or failing to for want of a table (n is 0). */
  lemma GrewNext(mem0: Memory, owner0: Owner, d: nat, lo: nat, v: nat, mem1: Memory, owner1: Owner, free1: nat, f: nat,
      n: nat, mem2: Memory, owner2: Owner, free2: nat)
    requires Grew(mem0, owner0, d, lo, v, mem1, owner1) && Tables(mem1, owner1) && lo <= v < UPAGES &&
             IsDir(owner0, d) && d < NFRAMES && n <= 1
    requires f !in owner1 && f < NFRAMES && SameMaps(mem1, mem1[f := ZeroPage()], owner1[f := Held])
    requires Progress(mem1[f := ZeroPage()], owner1[f := Held], free1, d, v, n, f, PTE_W + PTE_U, mem2, owner2, free2)
    ensures n == 1 ==> Grew(mem0, owner0, d, lo, v + 1, mem2, owner2)
    ensures n == 0 ==> f in owner2 && owner2[f] == Held && Grew(mem0, owner0, d, lo, v, mem2, owner2 - {f})
  {
    hide Tabs, Tables, Ranged, SameMaps, DirGrown, GrewMaps;
    GrewOwnersNext(owner0, d, lo, v, owner1, f, n, owner2);
    GrewKept(mem0, owner0, d, lo, v, mem1, owner1, f, mem2);
    GrewMapsNext(mem0, owner0, d, lo, v, mem1, owner1, f, n, mem2);
  }

  lemma GrewOwnersNext(owner0: Owner, d: nat, lo: nat, v: nat, owner1: Owner, f: nat, n: nat, owner2: Owner)
    requires GrewOwners(owner0, d, lo, v, owner1) && f !in owner1 && lo <= v < UPAGES && n <= 1
    requires TablesAdded(MappedRange(owner1[f := Held], d, v, n, f), owner2, d)
    ensures n == 1 ==> GrewOwners(owner0, d, lo, v + 1, owner2)
    ensures n == 0 ==> f in owner2 && owner2[f] == Held && GrewOwners(owner0, d, lo, v, owner2 - {f})
  {
    assert MappedRange(owner1[f := Held], d, v, n, f) == owner1[f := if n == 1 then Data(d, v) else Held];
  }

  lemma GrewKept(mem0: Memory, owner0: Owner, d: nat, lo: nat, v: nat, mem1: Memory, owner1: Owner, f: nat,
      mem2: Memory)
    requires GrewOwners(owner0, d, lo, v, owner1) && f !in owner1 && f < NFRAMES
    requires Kept(mem0, mem1, owner0, d) && Kept(mem1[f := ZeroPage()], mem2, owner1[f := Held], d)
    ensures Kept(mem0, mem2, owner0, d)
  {
  }

  lemma GrewMapsNext(mem0: Memory, owner0: Owner, d: nat, lo: nat, v: nat, mem1: Memory, owner1: Owner, f: nat, n: nat,
      mem2: Memory)
    requires GrewMaps(mem0, owner0, d, lo, v, mem1) && GrewOwners(owner0, d, lo, v, owner1) && Tables(mem1, owner1) &&
             lo <= v < UPAGES
    requires IsDir(owner0, d) && d < NFRAMES && f !in owner1 && f < NFRAMES && n <= 1 &&
             SameMaps(mem1, mem1[f := ZeroPage()], owner1[f := Held])
    requires Ranged(mem1[f := ZeroPage()], mem2, owner1[f := Held], d, v, n, f, PTE_W + PTE_U) &&
             Kept(mem1[f := ZeroPage()], mem2, owner1[f := Held], d)
    ensures GrewMaps(mem0, owner0, d, lo, v + n, mem2)
  {
    var mem, owner := mem1[f := ZeroPage()], owner1[f := Held];
    hide Pte, Tables, GrewOwners;
    assert d in owner0;
    forall x: nat, y: nat | IsDir(owner0, x) && x < NFRAMES && y < VPAGES
      ensures if x == d && lo <= y < v + n then FreshPage(mem2, Pte(mem2, x, y)) else Pte(mem2, x, y) == Pte(mem0, x, y)
    {
      StillDir(owner0, d, lo, v, owner1, x);
      assert Pte(mem, x, y) == Pte(mem1, x, y);
      if x == d && lo <= y < v {
        FreshKept(mem1, owner1, d, y, f, mem2);
      } else if x == d && lo <= y < v + n {
        assert f != d;
        assert mem2[f] == ZeroPage();
      }
    }
  }

  lemma StillDir(owner0: Owner, d: nat, lo: nat, v: nat, owner1: Owner, x: nat)
    requires GrewOwners(owner0, d, lo, v, owner1) && IsDir(owner0, x)
    ensures IsDir(owner1, x)
  {
  }

  lemma FreshKept(mem1: Memory, owner1: Owner, d: nat, y: nat, f: nat, mem2: Memory)
    requires Tables(mem1, owner1) && IsDir(owner1, d) && d < NFRAMES && y < UPAGES &&
             FreshPage(mem1, Pte(mem1, d, y)) && f !in owner1 && f < NFRAMES
    requires Kept(mem1[f := ZeroPage()], mem2, owner1[f := Held], d)
    ensures FreshPage(mem2, Pte(mem1, d, y))
  {
    assert PageOk(mem1, owner1, d, y);
  }

  ghost predicate NoneMapped(mem: Memory, d: nat, lo: nat, hi: nat) {
    d < NFRAMES && forall y: nat :: lo <= y < hi && y < VPAGES ==> !Present(Pte(mem, d, y))
  }

  lemma GrewDir(mem0: Memory, owner0: Owner, d: nat, lo: nat, v: nat, mem: Memory, owner: Owner)
    requires IsDir(owner0, d) && Grew(mem0, owner0, d, lo, v, mem, owner)
    ensures IsDir(owner, d)
  {
  }

  lemma GrewNot(mem0: Memory, owner0: Owner, d: nat, lo: nat, v: nat, mem: Memory, owner: Owner, f: nat)
    requires Grew(mem0, owner0, d, lo, v, mem, owner) && f !in owner
    ensures f !in owner0
  {
  }

  lemma GrewAbsent(mem0: Memory, owner0: Owner, d: nat, lo: nat, v: nat, hi: nat, mem: Memory, owner: Owner)
    requires IsDir(owner0, d) && d < NFRAMES && Grew(mem0, owner0, d, lo, v, mem, owner) && lo <= v < hi && v < VPAGES
    ensures NoneMapped(mem0, d, lo, hi) ==> !Present(Pte(mem, d, v))
  {
  }

  lemma SameMap(mem: Memory, mem': Memory, owner: Owner, d: nat, v: nat)
    requires SameMaps(mem, mem', owner) && IsDir(owner, d) && d < NFRAMES && v < VPAGES
    ensures Pte(mem', d, v) == Pte(mem, d, v)
  {
  }

  /** One page from a page-aligned address, to a held frame. */
  lemma HeldOne(owner: Owner, v: nat, f: nat)
    requires f in owner && owner[f] == Held && f < NFRAMES && v < UPAGES
    ensures Span(v * PGSIZE, PGSIZE) == 1 && f * PGSIZE % PGSIZE == 0 && f * PGSIZE / PGSIZE == f &&
            HeldRange(owner, v, 1, f)
    ensures v * PGSIZE + PGSIZE <= UINT
  {
  }

  lemma StillHeld(owner: Owner, d: nat, lo: nat, hi: nat, f: nat)
    requires f in owner && owner[f] == Held
    ensures f in Dropped(owner, d, lo, hi) && Dropped(owner, d, lo, hi)[f] == Held
  {
  }

  lemma OnlyTablesFreed(mem0: Memory, owner0: Owner, d: nat, lo: nat, hi: nat, mem: Memory, owner: Owner, f: nat,
      mem': Memory)
    requires Tables(mem0, owner0) && OnlyTables(mem0, owner0, d, lo, hi, mem, owner) && f !in owner0 && f < NFRAMES
    requires mem' == mem[f := mem'[f]] && SameMaps(mem, mem', owner)
    ensures OnlyTables(mem0, owner0, d, lo, hi, mem', owner)
  {
  }

  /** After the pages added are dropped again, all that is left of them are tables. */
  ghost predicate OnlyTables(mem0: Memory, owner0: Owner, d: nat, lo: nat, hi: nat, mem: Memory, owner: Owner) {
    TablesAdded(owner0, owner, d) && Kept(mem0, mem, owner0, d) && Unmapped(mem0, mem, owner0, d, lo, hi)
  }

  lemma GrewDropped(mem0: Memory, owner0: Owner, d: nat, lo: nat, v: nat, hi: nat, extra: set<nat>, mem1: Memory,
      owner1: Owner, mem2: Memory, owner2: Owner)
    requires Tables(mem0, owner0) && IsDir(owner0, d) && d < NFRAMES &&
             Grew(mem0, owner0, d, lo, v, mem1, owner1 - extra) && lo <= v <= hi
    requires forall f :: f in extra ==> f in owner1 && owner1[f] == Held && f !in owner0
    requires NoneMapped(mem0, d, lo, hi)
    requires owner2 == Dropped(owner1, d, lo, hi) && Kept(mem1, mem2, owner2, d) &&
             Unmapped(mem1, mem2, owner2, d, lo, hi)
    ensures OnlyTables(mem0, owner0, d, lo, hi, mem2, owner2 - extra)
  {
  }

  /** Entries a to b of a directory that are not in use. */
  function Missing(p: Page, a: nat, b: nat): nat
    requires b <= ENTRIES
    decreases b
  {
    if b <= a then 0 else Missing(p, a, b - 1) + if Present(p[b - 1]) then 0 else 1
  }

  /** One past the last table that pages lo to v lie in. */
  function Top(lo: nat, v: nat): nat {
    if v <= lo then lo / ENTRIES else (v - 1) / ENTRIES + 1
  }

  /** Page frames it takes to add pages lo to v: themselves, and the tables that are missing. */
  function GrowNeed(p: Page, lo: nat, v: nat): nat
    requires lo <= v <= UPAGES
  {
    v - lo + Missing(p, lo / ENTRIES, Top(lo, v))
  }

  /** The tables there are and the page frames left when pages lo to v have been added to a directory that was p0. */
  ghost predicate GrewCount(p0: Page, free0: nat, lo: nat, v: nat, p: Page, free: nat) {
    lo <= v <= UPAGES && free + GrowNeed(p0, lo, v) == free0 &&
    forall i: nat :: i < ENTRIES ==> (Present(p[i]) <==> Present(p0[i]) || lo / ENTRIES <= i < Top(lo, v))
  }

  lemma {:induction false} TabsAdd(p: Page, p': Page, j: nat, add: bool, k: nat)
    requires k <= ENTRIES && j < ENTRIES && forall i: nat :: i < ENTRIES ==>
             (Present(p'[i]) <==> Present(p[i]) || (add && i == j))
    ensures Tabs(p', k) == Tabs(p, k) + if add && j < k && !Present(p[j]) then 1 else 0
  {
    if k > 0 {
      TabsAdd(p, p', j, add, k - 1);
    }
  }

  /** Adding page v takes one frame, and another if its table is missing. */
  lemma GrowNeedNext(p0: Page, free0: nat, lo: nat, v: nat, p: Page, free: nat)
    requires GrewCount(p0, free0, lo, v, p, free) && v < UPAGES
    ensures GrowNeed(p0, lo, v + 1) == GrowNeed(p0, lo, v) + if Present(p[v / ENTRIES]) then 1 else 2
    ensures Top(lo, v + 1) == v / ENTRIES + 1 && (Top(lo, v) == v / ENTRIES || Top(lo, v) == v / ENTRIES + 1)
  {
  }

  /** Page v has been added (n is 1), or there was a frame for it but none for its table (n is 0). */
  lemma GrewCountNext(p0: Page, free0: nat, lo: nat, v: nat, p: Page, free: nat, n: nat, p': Page, free': nat)
    requires GrewCount(p0, free0, lo, v, p, free) && v < UPAGES && 0 < free && n <= 1 && DirGrown(p, p', v, n)
    requires free' + Tabs(p', ENTRIES) == free - 1 + Tabs(p, ENTRIES)
    ensures n == 1 ==> GrewCount(p0, free0, lo, v + 1, p', free')
    ensures n == 0 && free' == 0 && !Present(p'[v / ENTRIES]) ==> free0 < GrowNeed(p0, lo, v + 1)
  {
    hide Missing;
    GrowNeedNext(p0, free0, lo, v, p, free);
    TabsAdd(p, p', v / ENTRIES, n == 1, ENTRIES);
  }

  lemma GrewCountNone(p: Page, free: nat, lo: nat)
    requires lo <= UPAGES
    ensures GrewCount(p, free, lo, lo, p, free)
  {
  }

  lemma GrewCountEnough(p0: Page, free0: nat, lo: nat, v: nat, p: Page, free: nat)
    requires GrewCount(p0, free0, lo, v, p, free)
    ensures free0 == free + GrowNeed(p0, lo, v)
  {
  }

  lemma NoPageLeft(p0: Page, free0: nat, lo: nat, v: nat, p: Page)
    requires GrewCount(p0, free0, lo, v, p, 0) && v < UPAGES
    ensures free0 < GrowNeed(p0, lo, v + 1)
  {
    hide Missing;
    GrowNeedNext(p0, free0, lo, v, p, 0);
  }

  lemma {:induction false} GrowNeedGrows(p: Page, lo: nat, v: nat, hi: nat)
    requires lo <= v <= hi <= UPAGES
    ensures GrowNeed(p, lo, v) <= GrowNeed(p, lo, hi)
    decreases hi
  {
    if v < hi {
      GrowNeedGrows(p, lo, v, hi - 1);
      assert Top(lo, hi - 1) <= Top(lo, hi) <= Top(lo, hi - 1) + 1;
    }
  }

  // ---------------------------------------------------------------- copying

  /** Tables needed for the first v user pages. */
  function TablesFor(v: nat): nat {
    (v + ENTRIES - 1) / ENTRIES
  }

  /** Page frames a copy of v user pages takes: the kernel's 65, the pages, and their tables. */
  function Need(v: nat): nat {
    65 + v + TablesFor(v)
  }

  /** With n free frames, the copy of np pages runs out just when a page has been taken and its table is missing. */
  predicate Leaks(n: nat, np: nat) {
    n >= 66 && (n - 66) % (ENTRIES + 1) == 0 && (n - 66) / (ENTRIES + 1) * ENTRIES < np
  }

  lemma LeaksIff(n: nat, np: nat)
    ensures Leaks(n, np) <==> exists v: nat :: v < np && v % ENTRIES == 0 && n == Need(v) + 1
  {
    if Leaks(n, np) {
      var k := (n - 66) / (ENTRIES + 1);
      var v := k * ENTRIES;
      assert v < np && v % ENTRIES == 0 && n == Need(v) + 1;
    }
    forall v: nat | v < np && v % ENTRIES == 0 && n == Need(v) + 1
      ensures Leaks(n, np)
    {
      var k := v / ENTRIES;
      assert n - 66 == k * (ENTRIES + 1);
    }
  }

  lemma NoLeak(v: nat, np: nat)
    requires v < np
    ensures !Leaks(Need(v), np) && Need(v) + 1 <= Need(np) && (v % ENTRIES == 0 ==> Need(v) + 2 <= Need(np))
  {
  }

  lemma IsLeak(v: nat, np: nat)
    requires v < np && v % ENTRIES == 0
    ensures Leaks(Need(v) + 1, np)
  {
  }

  lemma NeedLeast(n: nat, np: nat)
    ensures Need(np) >= 65 && (Leaks(n, np) ==> n >= 65)
  {
  }

  ghost predicate Copied(mem0: Memory, e0: word, mem: Memory, e: word) {
    Present(e) && e % PGSIZE == e0 % PGSIZE && Frame(e0) < NFRAMES && Frame(e) < NFRAMES &&
    mem[Frame(e)] == mem0[Frame(e0)]
  }

  /** The first v user pages of d are in d2 with the same flags and contents, no other user page is, and the kernel's
      are. */
  ghost predicate CopyMaps(kdata: nat, mem0: Memory, d: nat, d2: nat, v: nat, mem: Memory)
    requires d < NFRAMES && d2 < NFRAMES
  {
    forall y: nat :: y < VPAGES ==>
      if y < v && y < UPAGES then Copied(mem0, Pte(mem0, d, y), mem, Pte(mem, d2, y))
        else Pte(mem, d2, y) == KernelEntry(kdata, y)
  }

  ghost predicate CopyOwners(owner0: Owner, d2: nat, owner: Owner) {
    IsDir(owner, d2) && (forall f :: f in owner0 ==> f in owner && owner[f] == owner0[f]) &&
    forall f :: f in owner && f !in owner0 ==> f == d2 || Of(owner[f], d2)
  }

  /** The state of a copy after v pages: what is in the child, that it is all new, and how many page frames are left. */
  ghost predicate Child(kdata: nat, mem0: Memory, owner0: Owner, free0: nat, d: nat, d2: nat, v: nat, mem: Memory,
      owner: Owner, free: nat) {
    d < NFRAMES && d2 < NFRAMES && CopyOwners(owner0, d2, owner) && AllKept(mem0, mem, owner0) &&
    CopyMaps(kdata, mem0, d, d2, v, mem) &&
    (forall i: nat :: i < ENTRIES ==> (Present(mem[d2][i]) <==> InUse(TablesFor(v), i))) && free + Need(v) == free0
  }

  lemma ChildNew(kdata: nat, mem0: Memory, owner0: Owner, free0: nat, d: nat, d2: nat, mem: Memory, owner: Owner,
      free: nat)
    requires d < NFRAMES && d2 < NFRAMES && d2 !in owner0 && TablesAdded(owner0[d2 := Dir], owner, d2) &&
             AllKept(mem0, mem, owner0) && free + 65 == free0
    requires forall v: nat :: v < VPAGES ==> Pte(mem, d2, v) == KernelEntry(kdata, v)
    requires forall i: nat :: i < ENTRIES ==> (Present(mem[d2][i]) <==> InUse(0, i))
    ensures Child(kdata, mem0, owner0, free0, d, d2, 0, mem, owner, free)
  {
  }

  lemma ChildMeans(kdata: nat, mem0: Memory, owner0: Owner, free0: nat, d: nat, d2: nat, v: nat, mem: Memory,
      owner: Owner, free: nat)
    requires Tables(mem0, owner0) && IsDir(owner0, d) && v < UPAGES + 1 &&
             Child(kdata, mem0, owner0, free0, d, d2, v, mem, owner, free)
    ensures IsDir(owner, d) && IsDir(owner, d2) && d2 < NFRAMES && free + Need(v) == free0 &&
            AllKept(mem0, mem, owner0) && d < NFRAMES
    ensures v < UPAGES ==> Pte(mem, d, v) == Pte(mem0, d, v) && !Present(Pte(mem, d2, v))
  {
    if v < UPAGES {
      KeptPte(mem0, owner0, d, v, mem);
    }
    hide Pte;
  }

  /** Where owned pages keep their contents, directories keep their mappings. */
  lemma KeptPte(mem0: Memory, owner0: Owner, d: nat, v: nat, mem: Memory)
    requires Tables(mem0, owner0) && IsDir(owner0, d) && d < NFRAMES && v < VPAGES && AllKept(mem0, mem, owner0)
    ensures Pte(mem, d, v) == Pte(mem0, d, v)
  {
    assert EntryOk(mem0, owner0, d, v / ENTRIES);
  }

  lemma ParentPage(mem: Memory, owner: Owner, d: nat, v: nat, t: nat)
    requires Tables(mem, owner) && IsDir(owner, d) && d < NFRAMES && v < UPAGES
    requires if t == 0 then !Present(mem[d][v / ENTRIES]) else t in owner && owner[t] == Table(d, v / ENTRIES)
    ensures t == 0 ==> Pte(mem, d, v) == 0
    ensures t != 0 ==> t < NFRAMES && mem[t][v % ENTRIES] == Pte(mem, d, v)
    ensures Present(Pte(mem, d, v)) ==>
              Frame(Pte(mem, d, v)) < NFRAMES && Frame(Pte(mem, d, v)) in owner &&
              owner[Frame(Pte(mem, d, v))] == Data(d, v)
  {
    if t != 0 {
      TableEntry(mem, owner, d, v, t);
    }
    assert PageOk(mem, owner, d, v);
    if Present(Pte(mem, d, v)) {
      assert UseOk(mem, owner, Frame(Pte(mem, d, v)));
    }
  }

  lemma PageWritten(end: nat, mem: Memory, freelist: word, free: seq<nat>, owner: Owner, f: nat, p: Page)
    requires Lists(mem, freelist, free) && Whole(end, free, owner) && f in owner && f < NFRAMES
    ensures Lists(mem[f := p], freelist, free)
  {
    ListsKept(mem, mem[f := p], freelist, free);
  }

  lemma ChildGone(kdata: nat, mem0: Memory, owner0: Owner, free0: nat, d: nat, d2: nat, v: nat, mem: Memory,
      owner: Owner, free: nat)
    requires Foreign(owner0, d2) && Child(kdata, mem0, owner0, free0, d, d2, v, mem, owner, free)
    ensures Gone(owner, d2) == owner0
  {
  }

  lemma ForeignMeans(owner0: Owner, d2: nat)
    requires Foreign(owner0, d2)
    ensures d2 !in owner0
  {
  }

  lemma CopyDir(owner0: Owner, d2: nat, owner: Owner)
    requires CopyOwners(owner0, d2, owner)
    ensures IsDir(owner, d2) && forall f :: f in owner0 ==> f in owner
  {
  }

  lemma CopyOwnersNext(owner0: Owner, d2: nat, v: nat, owner1: Owner, f: nat, n: nat, owner2: Owner)
    requires Foreign(owner0, d2) && CopyOwners(owner0, d2, owner1) && f !in owner1 && v < UPAGES && n <= 1
    requires TablesAdded(MappedRange(owner1[f := Held], d2, v, n, f), owner2, d2)
    ensures f !in owner0 && IsDir(owner2, d2) && f in owner2
    ensures n == 1 ==> CopyOwners(owner0, d2, owner2)
    ensures n == 0 ==> Gone(owner2, d2) == owner0[f := Held]
  {
    var range := owner1[f := if n == 1 then Data(d2, v) else Held];
    assert MappedRange(owner1[f := Held], d2, v, n, f) == range;
    assert d2 in range && f in range;
    assert forall g :: g in owner0 ==> g in range;
  }

  lemma CopyKept(mem0: Memory, owner0: Owner, d2: nat, mem1: Memory, owner1: Owner, f: nat, p: Page, mem2: Memory)
    requires Foreign(owner0, d2) && CopyOwners(owner0, d2, owner1) && f !in owner1 && f < NFRAMES
    requires AllKept(mem0, mem1, owner0) && Kept(mem1[f := p], mem2, owner1[f := Held], d2)
    ensures AllKept(mem0, mem2, owner0) && mem2[f] == p
  {
  }

  /** The tables of the child after page v, and how many were made for it. */
  lemma CopyTabs(v: nat, p: Page, n: nat, p2: Page)
    requires v < UPAGES && n <= 1 && DirGrown(p, p2, v, n) && forall i: nat :: i < ENTRIES ==>
             (Present(p[i]) <==> InUse(TablesFor(v), i))
    ensures Tabs(p, ENTRIES) == 64 + TablesFor(v) && Tabs(p2, ENTRIES) == 64 + TablesFor(v + n)
    ensures forall i: nat :: i < ENTRIES ==> (Present(p2[i]) <==> InUse(TablesFor(v + n), i))
    ensures n == 0 && !Present(p2[v / ENTRIES]) ==> v % ENTRIES == 0
  {
    assert TablesFor(v) <= 512 && TablesFor(v + n) <= 512;
    assert forall i: nat :: InUse(TablesFor(v + 1), i) <==> InUse(TablesFor(v), i) || i == v / ENTRIES;
    TabsInUse(p, TablesFor(v), ENTRIES);
    TabsInUse(p2, TablesFor(v + n), ENTRIES);
  }

  lemma CopyMapsNext(kdata: nat, mem0: Memory, owner0: Owner, d: nat, d2: nat, v: nat, mem1: Memory, owner1: Owner,
      f: nat, p: Page, mem2: Memory)
    requires d < NFRAMES && d2 < NFRAMES && CopyMaps(kdata, mem0, d, d2, v, mem1) && Tables(mem1, owner1) &&
             IsDir(owner1, d2) && v < UPAGES
    requires f !in owner1 && f < NFRAMES && mem2[f] == p && Present(Pte(mem0, d, v)) &&
             Frame(Pte(mem0, d, v)) < NFRAMES && p == mem0[Frame(Pte(mem0, d, v))]
    requires SameMaps(mem1, mem1[f := p], owner1[f := Held]) && Kept(mem1[f := p], mem2, owner1[f := Held], d2)
    requires Ranged(mem1[f := p], mem2, owner1[f := Held], d2, v, 1, f, Pte(mem0, d, v) % PGSIZE)
    ensures CopyMaps(kdata, mem0, d, d2, v + 1, mem2)
  {
    var mem, owner := mem1[f := p], owner1[f := Held];
    hide Pte, KernelEntry, Tables;
    assert IsDir(owner, d2);
    forall y: nat | y < VPAGES
      ensures if y < v + 1 && y < UPAGES then Copied(mem0, Pte(mem0, d, y), mem2, Pte(mem2, d2, y))
              else Pte(mem2, d2, y) == KernelEntry(kdata, y)
    {
      assert Pte(mem, d2, y) == Pte(mem1, d2, y);
      if y == v {
        assert Pte(mem2, d2, y) == Entry(f, Pte(mem0, d, v) % PGSIZE);
        EntryFlags(f, Pte(mem0, d, v));
      } else if y < v {
        assert Pte(mem2, d2, y) == Pte(mem1, d2, y);
        UserPage(mem1, owner1, d2, y);
      } else {
        assert Pte(mem2, d2, y) == Pte(mem1, d2, y);
      }
    }
  }

  lemma EntryFlags(f: nat, e: word)
    requires f < NFRAMES && Present(e)
    ensures Entry(f, e % PGSIZE) % PGSIZE == e % PGSIZE
  {
  }

  lemma UserPage(mem: Memory, owner: Owner, d: nat, y: nat)
    requires Tables(mem, owner) && IsDir(owner, d) && d < NFRAMES && y < UPAGES && Present(Pte(mem, d, y))
    ensures Frame(Pte(mem, d, y)) in owner && owner[Frame(Pte(mem, d, y))] == Data(d, y)
  {
    assert PageOk(mem, owner, d, y);
  }

  /** Page f holds a copy of page v of d and mapping it into d2 succeeded (n is 1) or found no memory for a table (n
      is 0). */
  lemma ChildNext(kdata: nat, mem0: Memory, owner0: Owner, free0: nat, d: nat, d2: nat, v: nat, mem1: Memory,
      owner1: Owner, free1: nat,
                  f: nat, n: nat, mem2: Memory, owner2: Owner, free2: nat)
    requires Tables(mem0, owner0) && IsDir(owner0, d) && Foreign(owner0, d2) &&
             Child(kdata, mem0, owner0, free0, d, d2, v, mem1, owner1, free1)
    requires Tables(mem1, owner1) && v < UPAGES && f !in owner1 && f < NFRAMES && n <= 1 && 0 < free1 &&
             Present(Pte(mem0, d, v))
    requires d < NFRAMES && Frame(Pte(mem0, d, v)) < NFRAMES
    requires var mem := mem1[f := mem1[Frame(Pte(mem0, d, v))]];
             SameMaps(mem1, mem, owner1[f := Held]) &&
             Progress(mem, owner1[f := Held], free1 - 1, d2, v, n, f, Pte(mem0, d, v) % PGSIZE, mem2, owner2, free2)
    requires n == 0 ==> free2 == 0 && !Present(mem2[d2][v / ENTRIES])
    ensures f !in owner0 && IsDir(owner2, d2) && AllKept(mem0, mem2, owner0)
    ensures n == 1 ==> Child(kdata, mem0, owner0, free0, d, d2, v + 1, mem2, owner2, free2)
    ensures n == 0 ==> Gone(owner2, d2) == owner0[f := Held] && free0 == Need(v) + 1 && v % ENTRIES == 0
  {
    hide Tabs, Pte, KernelEntry, Ranged, DirGrown, Kept, TablesAdded, Tables, CopyOwners, CopyMaps, SameMaps, Gone,
      Foreign, InUse, TablesFor, MappedRange;
    var mem := mem1[f := mem1[Frame(Pte(mem0, d, v))]];
    UserPage(mem0, owner0, d, v);
    CopyDir(owner0, d2, owner1);
    CopyOwnersNext(owner0, d2, v, owner1, f, n, owner2);
    CopyKept(mem0, owner0, d2, mem1, owner1, f, mem[f], mem2);
    CopyTabs(v, mem[d2], n, mem2[d2]);
    if n == 1 {
      CopyMapsNext(kdata, mem0, owner0, d, d2, v, mem1, owner1, f, mem[f], mem2);
    }
  }

  /** The frames of a copy are new and distinct: each belongs to one page of the child and to nothing that was there. */
  lemma CopyDisjoint(kdata: nat, mem0: Memory, owner0: Owner, free0: nat, d: nat, d2: nat, v: nat, mem: Memory,
      owner: Owner, free: nat, y: nat)
    requires Foreign(owner0, d2) && Tables(mem, owner) &&
             Child(kdata, mem0, owner0, free0, d, d2, v, mem, owner, free) && y < v && y < UPAGES
    ensures Frame(Pte(mem, d2, y)) !in owner0 && Frame(Pte(mem, d2, y)) in owner &&
            owner[Frame(Pte(mem, d2, y))] == Data(d2, y)
  {
    assert Copied(mem0, Pte(mem0, d, y), mem, Pte(mem, d2, y));
    UserPage(mem, owner, d2, y);
  }

  /** Copying one page with 66 frames free loses a frame; with one frame more or less it does not. */
  lemma LeakExample()
    ensures Leaks(66, 1) && !Leaks(65, 1) && !Leaks(67, 1)
  {
  }

  // ---------------------------------------------------------------- process size

  /** The user pages mapped are those below sz. */
  ghost predicate UserExact(mem: Memory, d: nat, sz: nat)
    requires d < NFRAMES
  {
    forall y: nat :: y < UPAGES ==> (Present(Pte(mem, d, y)) <==> y < Pages(sz))
  }

  lemma ExactNone(mem: Memory, d: nat, sz: nat, newsz: nat)
    requires d < NFRAMES && UserExact(mem, d, sz) && Pages(newsz) <= UPAGES
    ensures NoneMapped(mem, d, Pages(sz), Pages(newsz))
  {
  }

  lemma ExactGrown(mem0: Memory, owner0: Owner, d: nat, sz: nat, newsz: nat, mem: Memory, owner: Owner)
    requires d < NFRAMES && IsDir(owner0, d) && UserExact(mem0, d, sz) && sz <= newsz &&
             Grew(mem0, owner0, d, Pages(sz), Pages(newsz), mem, owner)
    ensures UserExact(mem, d, newsz)
  {
  }

  lemma ExactKept(mem0: Memory, owner0: Owner, d: nat, sz: nat, newsz: nat, mem: Memory, owner: Owner)
    requires d < NFRAMES && IsDir(owner0, d) && UserExact(mem0, d, sz) &&
             OnlyTables(mem0, owner0, d, Pages(sz), Pages(newsz), mem, owner)
    ensures UserExact(mem, d, sz)
  {
  }

  lemma ExactShrunk(mem0: Memory, owner: Owner, d: nat, sz: nat, newsz: nat, mem: Memory)
    requires d < NFRAMES && IsDir(owner, d) && UserExact(mem0, d, sz) && sz <= KERNBASE &&
             Unmapped(mem0, mem, owner, d, Pages(newsz), Pages(sz))
    ensures UserExact(mem, d, if newsz < sz then newsz else sz)
    ensures newsz == 0 < sz ==> !UserExact(mem, d, sz)
  {
    hide Pte;
    if newsz == 0 < sz {
      assert !Present(Pte(mem, d, 0)) && 0 < Pages(sz);
    }
  }
}
