/** The code of kalloc.c and vm.c. A page is named by its physical frame number; 0 stands for a null pointer. */
module VmCode {
  import opened Basics
  import opened VmModel
  import opened VmSteps
  import opened VmKernel
  import opened VmUser
  import opened VmAccess

  class Vm {
    const end: nat
    const kdata: nat // frame at which the kernel's writable data starts
    var mem: Memory
    var freelist: word
    ghost var free: seq<nat>
    ghost var owner: Owner

    /** Before freerange every managed page is held, by nobody in particular. */
    constructor (end: nat, kdata: nat)
      requires KERNBASE + EXTMEM <= end && EXTMEM / PGSIZE < kdata < NFRAMES
      ensures Valid() && this.end == end && this.kdata == kdata && free == [] && forall f :: f in owner ==>
              owner[f] == Held
    {
      this.end, this.kdata := end, kdata;
      mem := seq<Page>(NFRAMES, i => ZeroPage());
      freelist := 0;
      free, owner := [], map f: nat | f < NFRAMES && Managed(end, f) :: Held;
    }

    ghost predicate Valid()
      reads this
    {
      Tables(mem, owner) && Lists(mem, freelist, free) && Whole(end, free, owner)
    }

    /** kalloc: the page released last, or 0 if there is none. */
    method Kalloc() returns (f: nat)
      requires Valid()
      modifies this`freelist, this`free, this`owner
      ensures Valid() && (f == 0 <==> old(free) == [])
      ensures f == 0 ==> free == old(free) && owner == old(owner)
      ensures f != 0 ==>
                f == old(free)[0] && free == old(free)[1..] && f < NFRAMES && f !in old(owner) &&
                owner == old(owner)[f := Held]
    {
      hide Tables, LinkAt;
      if freelist == 0 {
        NullIffNone(mem, freelist, free);
        return 0;
      }
      NullIffNone(mem, freelist, free);
      Popped(mem, freelist, free);
      f := (freelist - KERNBASE) / PGSIZE;
      freelist := mem[f][0];
      Taken(mem, owner, f);
      assert free == [f] + free[1..];
      owner, free := owner[f := Held], free[1..];
    }

    /** kfree: `ok` is false where it panics, which is for an address that is no managed page. */
    method Kfree(v: nat) returns (ok: bool)
      requires Lists(mem, freelist, free) && KERNBASE + PGSIZE <= end && (v - KERNBASE) / PGSIZE !in free
      modifies this`mem, this`freelist, this`free
      ensures ok == (v % PGSIZE == 0 && end <= v && v - KERNBASE < PHYSTOP)
      ensures !ok ==> mem == old(mem) && freelist == old(freelist) && free == old(free)
      ensures ok ==> var f := (v - KERNBASE) / PGSIZE;
                     Managed(end, f) && free == [f] + old(free) && Lists(mem, freelist, free) &&
                     mem == old(mem)[f := mem[f]] && mem[f][0] == old(freelist) &&
                     forall i :: 0 < i < ENTRIES ==> mem[f][i] == 0x0101_0101
    {
      if v % PGSIZE != 0 || v < end || v - KERNBASE >= PHYSTOP {
        return false;
      }
      var f := (v - KERNBASE) / PGSIZE;
      var page: Page := seq(ENTRIES, i => 0x0101_0101);
      page := page[0 := freelist];
      Pushed(mem, freelist, free, f, page);
      mem := mem[f := page];
      freelist := v;
      free := [f] + free;
      ok := true;
    }

    /** Giving back a page that is in no address space. */
    method KfreeHeld(f: nat) returns (ok: bool)
      requires Valid() && f in owner && owner[f] == Held
      modifies this`mem, this`freelist, this`free, this`owner
      ensures ok && Valid() && f < NFRAMES && owner == old(owner) - {f} && free == [f] + old(free)
      ensures SameMaps(old(mem), mem, owner) && mem == old(mem)[f := mem[f]]
    {
      hide Lists, LinkAt, Pte;
      ghost var mem0 := mem;
      GivenUp(mem, owner, f);
      assert UseOk(mem, owner, f);
      assert Managed(end, f);
      ok := Kfree(KERNBASE + f * PGSIZE);
      owner := owner - {f};
      PlainWrite(mem0, owner, f, mem[f]);
    }

    /** freerange: every whole page in the range goes to the free list. */
    method Freerange(vstart: nat, vend: nat) returns (ok: bool)
      requires Valid() && end <= vstart && vend <= KERNBASE + PHYSTOP
      requires forall f: nat :: WholePage(vstart, vend, f) ==> f in owner && owner[f] == Held
      modifies this`mem, this`freelist, this`free, this`owner
      ensures ok && Valid() && owner == map f | f in old(owner) && !WholePage(vstart, vend, f) :: old(owner)[f]
    {
      hide Tables, Lists;
      ghost var owner0 := owner;
      var p := PgRoundUp(vstart);
      ghost var q := (p - KERNBASE) / PGSIZE;
      FirstPage(vstart, vend);
      while p + PGSIZE <= vend
        invariant (vstart + PGSIZE - 1 - KERNBASE) / PGSIZE <= q && p == KERNBASE + q * PGSIZE && Valid()
        invariant owner == Freed(owner0, vstart, vend, q)
        decreases vend - p
      {
        NextPage(owner0, vstart, vend, q);
        ok := KfreeHeld((p - KERNBASE) / PGSIZE);
        p, q := p + PGSIZE, q + 1;
      }
      ok := true;
    }

    /** kalloc followed by memset to 0. */
    method ZeroedPage() returns (f: nat)
      requires Valid()
      modifies this`mem, this`freelist, this`free, this`owner
      ensures Valid() && (f == 0 <==> old(free) == [])
      ensures f == 0 ==> mem == old(mem) && free == old(free) && owner == old(owner)
      ensures f != 0 ==>
                f == old(free)[0] && free == old(free)[1..] && f < NFRAMES && f !in old(owner) &&
                owner == old(owner)[f := Held]
      ensures f != 0 ==> mem == old(mem)[f := ZeroPage()] && SameMaps(old(mem), mem, owner)
    {
      hide Lists, Tables, SameMaps, Pte;
      f := Kalloc();
      if f != 0 {
        PlainWrite(mem, owner, f, ZeroPage());
        ListsKept(mem, mem[f := ZeroPage()], freelist, free);
        mem := mem[f := ZeroPage()];
      }
    }

    /** walkpgdir: the table page for va, or 0; the entry is the one at index PTX(va) of it. */
    method Walkpgdir(d: nat, va: nat, alloc: bool) returns (t: nat)
      requires Valid() && IsDir(owner, d) && va < UINT
      modifies this`mem, this`freelist, this`free, this`owner
      ensures Valid() && IsDir(owner, d) && d < NFRAMES && SameMaps(old(mem), mem, old(owner)) &&
              Kept(old(mem), mem, old(owner), d)
      ensures TablesAdded(old(owner), owner, d) &&
              |free| + Tabs(mem[d], ENTRIES) == |old(free)| + Tabs(old(mem)[d], ENTRIES)
      ensures t != 0 ==>
                t in owner && t < NFRAMES && owner[t] == Table(d, Pdx(va)) && Hangs(mem[d], old(mem)[d], Pdx(va)) &&
                Writable(mem[d][Pdx(va)]) && User(mem[d][Pdx(va)])
      ensures t == 0 <==> !Present(old(mem)[d][Pdx(va)]) && (!alloc || old(free) == [])
      ensures t == 0 || !alloc ==> mem == old(mem) && free == old(free) && owner == old(owner)
    {
      hide Lists, Tabs, Pte, Tables, Writable, User;
      DirEntry(mem, owner, d, Pdx(va));
      var pde := mem[d][Pdx(va)];
      if Present(pde) {
        t := Frame(pde);
        return;
      }
      if !alloc {
        return 0;
      }
      t := ZeroedPage();
      if t != 0 {
        HungTables(mem, owner, d, Pdx(va), t);
        TabsOne(mem[d], Pdx(va), Entry(t, PTE_P + PTE_W + PTE_U), ENTRIES);
        var mem' := Hung(mem, d, Pdx(va), t);
        ListsKept(mem, mem', freelist, free);
        mem := mem';
        owner := owner[t := Table(d, Pdx(va))];
        DirEntry(mem, owner, d, Pdx(va));
      }
    }

    /** One iteration of the loop of mappages: `ok` is false where it panics for a page mapped already. */
    method MapOne(d: nat, a: nat, f: nat, perm: nat) returns (ok: bool, r: int)
      requires Valid() && IsDir(owner, d) && a < UINT && f < 0x10_0000 && perm < PGSIZE
      requires a < KERNBASE ==> f in owner && owner[f] == Held
      modifies this`mem, this`freelist, this`free, this`owner
      ensures d < NFRAMES && (!Present(Pte(old(mem), d, a / PGSIZE)) ==> ok)
      ensures ok ==> Valid() && r == if !Present(old(mem)[d][Pdx(a)]) && old(free) == [] then -1 else 0
      ensures ok && r == -1 ==> mem == old(mem) && free == old(free) && owner == old(owner)
      ensures ok && r == 0 ==>
                OneMap(old(mem), mem, old(owner), d, a / PGSIZE, Entry(f, perm)) && Hangs(mem[d], old(mem)[d], Pdx(a))
      ensures ok && r == 0 ==>
                TablesAdded(Mapped(old(owner), d, a / PGSIZE, Entry(f, perm)), owner, d) &&
                Kept(old(mem), mem, old(owner), d)
      ensures ok && r == 0 ==> |free| + Tabs(mem[d], ENTRIES) == |old(free)| + Tabs(old(mem)[d], ENTRIES)
    {
      hide Lists, Tabs, Pte, Tables;
      DirInRange(mem, owner, d);
      var t := Walkpgdir(d, a, true);
      if t == 0 {
        return true, -1;
      }
      ghost var v := a / PGSIZE;
      TableEntry(mem, owner, d, v, t);
      if Present(mem[t][Ptx(a)]) {
        return false, 0;
      }
      WithPteMaps(mem, owner, d, v, t, Entry(f, perm));
      MapTables(mem, owner, d, v, t, Entry(f, perm));
      var mem' := WithPte(mem, t, Ptx(a), Entry(f, perm));
      ListsKept(mem, mem', freelist, free);
      mem := mem';
      owner := Mapped(owner, d, v, Entry(f, perm));
      ok, r := true, 0;
    }

    /** mappages: `done` pages from that of va on are mapped to consecutive frames, all of them unless memory ran
        out. */
    method Mappages(d: nat, va: nat, size: nat, pa: nat, perm: nat) returns (ok: bool, r: int, ghost done: nat)
      requires Valid() && IsDir(owner, d) && 0 < size && va + size <= UINT && pa % PGSIZE == 0 && perm < PGSIZE
      requires pa / PGSIZE + Span(va, size) <= 0x10_0000 && HeldRange(owner, va / PGSIZE, Span(va, size), pa / PGSIZE)
      modifies this`mem, this`freelist, this`free, this`owner
      ensures d < NFRAMES && ((forall y: nat :: va / PGSIZE <= y < va / PGSIZE + Span(va, size) ==>
                !Present(Pte(old(mem), d, y))) ==> ok)
      ensures ok ==> Valid() && done <= Span(va, size) && r == (if done == Span(va, size) then 0 else -1)
      ensures ok && r == -1 ==> free == [] && !Present(mem[d][(va / PGSIZE + done) / ENTRIES])
      ensures ok ==>
              Progress(old(mem), old(owner), |old(free)|, d, va / PGSIZE, done, pa / PGSIZE, perm, mem, owner, |free|)
    {
      hide Lists, Tabs, Pte, Tables, Progress, Whole, Mapped, OneMap, Kept, TablesAdded, Hangs, HeldRange;
      DirInRange(mem, owner, d);
      var a, f := va / PGSIZE * PGSIZE, pa / PGSIZE;
      var last := (va + size - 1) / PGSIZE * PGSIZE;
      ghost var v0, n, f0 := va / PGSIZE, Span(va, size), pa / PGSIZE;
      ghost var mem0, owner0, free0 := mem, owner, |free|;
      done := 0;
      ProgressNone(mem, owner, free0, d, v0, f0, perm);
      while true
        invariant Valid() && done < n && a == (v0 + done) * PGSIZE && f == f0 + done && last == (v0 + n - 1) * PGSIZE
        invariant Progress(mem0, owner0, free0, d, v0, done, f0, perm, mem, owner, |free|)
        decreases n - done
      {
        ghost var mem1, owner1, free1 := mem, owner, |free|;
        PageIndex(v0 + done);
        HeldLess(owner0, v0, n, done + 1, f0);
        ProgressMeans(mem0, owner0, free0, d, v0, n, done, f0, perm, mem, owner, |free|);
        ok, r := MapOne(d, a, f, perm);
        if !ok || r < 0 {
          return;
        }
        ProgressNext(mem0, owner0, free0, d, v0, done, f0, perm, mem1, owner1, free1, mem, owner, |free|);
        done := done + 1;
        if a == last {
          break;
        }
        a, f := a + PGSIZE, f + 1;
      }
      ok, r := true, 0;
    }

    /** The body of deallocuvm's loop for a mapped page: free the frame, then clear the entry in table t. */
    method FreePage(d: nat, a: nat, t: nat) returns (ok: bool)
      requires Valid() && IsDir(owner, d) && a < KERNBASE && t in owner && owner[t] == Table(d, Pdx(a)) &&
               d < NFRAMES && Present(Pte(mem, d, a / PGSIZE))
      modifies this`mem, this`freelist, this`free, this`owner
      ensures ok && Valid() && OneMap(old(mem), mem, owner, d, a / PGSIZE, 0) && mem[d] == old(mem)[d]
      ensures var f := Frame(Pte(old(mem), d, a / PGSIZE));
              f in old(owner) && old(owner)[f] == Data(d, a / PGSIZE) && owner == old(owner) - {f}
      ensures Kept(old(mem), mem, owner, d)
    {
      hide Lists, Pte, Tables;
      ghost var v, mem0, owner0 := a / PGSIZE, mem, owner;
      TableEntry(mem, owner, d, v, t);
      var f := Frame(mem[t][Ptx(a)]);
      UnmapTables(mem, owner, d, v, t);
      assert Managed(end, f);
      if f == 0 {
        return false;
      }
      ok := Kfree(KERNBASE + f * PGSIZE);
      FreedTables(mem0, owner0, d, v, t, f, mem[f]);
      var mem' := WithPte(mem, t, Ptx(a), 0);
      ListsKept(mem, mem', freelist, free);
      mem := mem';
      owner := owner - {f};
    }

    /** deallocuvm: every page from newsz on up to oldsz is unmapped and its frame freed, tables that are missing being
        skipped whole; `ok` is false where a frame could not be freed. */
    method Deallocuvm(d: nat, oldsz: nat, newsz: nat) returns (ok: bool, r: nat)
      requires Valid() && IsDir(owner, d) && oldsz <= KERNBASE
      modifies this`mem, this`freelist, this`free, this`owner
      ensures ok && Valid() && IsDir(owner, d) && d < NFRAMES && r == if newsz >= oldsz then oldsz else newsz
      ensures owner == Dropped(old(owner), d, Pages(newsz), Pages(oldsz)) && mem[d] == old(mem)[d] &&
              Kept(old(mem), mem, owner, d)
      ensures Unmapped(old(mem), mem, owner, d, Pages(newsz), Pages(oldsz))
      ensures SameKernel(old(mem), old(owner), mem, owner)
    {
      hide Lists, Pte, Tables, Whole, Unmapped, Kept, Dropped, SameKernel;
      DirInRange(mem, owner, d);
      ghost var mem0, owner0, lo, hi := mem, owner, Pages(newsz), Pages(oldsz);
      if newsz >= oldsz {
        UnmapNone(mem, owner, d, lo, hi);
        UnmappedKernel(mem, owner, d, lo, hi, mem, owner);
        return true, oldsz;
      }
      UnmapNone(mem, owner, d, lo, lo);
      var a := PgRoundUp(newsz);
      ghost var v := lo;
      while a < oldsz
        invariant lo <= v <= hi && (a == v * PGSIZE || (oldsz <= a && v == hi)) && Valid() && IsDir(owner, d)
        invariant owner == Dropped(owner0, d, lo, v) && mem[d] == mem0[d] && Kept(mem0, mem, owner, d) &&
                  Unmapped(mem0, mem, owner, d, lo, v)
        decreases oldsz - a
      {
        var t := Walkpgdir(d, a, false);
        if t == 0 {
          SkipTable(mem0, mem, owner0, owner, d, lo, v, hi);
          a := (Pdx(a) + 1) * (PGSIZE * ENTRIES);
          v := NextTable(v, hi);
        } else {
          TableEntry(mem, owner, d, v, t);
          if Present(mem[t][Ptx(a)]) {
            ghost var mem1, owner1 := mem, owner;
            ok := FreePage(d, a, t);
            UnmapNext(mem0, owner0, d, lo, v, mem1, owner1, mem, owner);
          } else {
            UnmapAbsent(mem0, mem, owner0, owner, d, lo, v, v + 1);
          }
          a, v := a + PGSIZE, v + 1;
        }
      }
      UnmappedKernel(mem0, owner0, d, lo, hi, mem, owner);
      ok, r := true, newsz;
    }

    /** freevm gives back exactly what directory d owns, each page once, and touches no page that still has an owner. */
    method Freevm(d: nat) returns (ok: bool)
      requires Valid() && (d != 0 ==> IsDir(owner, d))
      modifies this`mem, this`freelist, this`free, this`owner
      ensures ok == (d != 0) && Valid() && AllKept(old(mem), mem, owner)
      ensures owner == if ok then Gone(old(owner), d) else old(owner)
      ensures old(Private(mem, owner)) ==> Private(mem, owner)
    {
      hide Lists, Pte, Tables, Whole, Private;
      if d == 0 {
        return false;
      }
      ghost var mem0, owner0 := mem, owner;
      GoneIs(mem, owner, d);
      var r;
      ok, r := Deallocuvm(d, KERNBASE, 0);
      ghost var mem1, owner1 := mem, owner;
      RetiredTables(mem, owner, d);
      owner := Retired(owner1, d, 0);
      RetiredWhole(end, free, owner1, d);
      var i := 0;
      while i < ENTRIES
        invariant i <= ENTRIES && Valid() && owner == Retired(owner1, d, i) && AllKept(mem1, mem, owner)
      {
        DirEntry(mem1, owner1, d, i);
        RetiredNext(mem1, owner1, d, i);
        if Present(mem[d][i]) {
          ok := KfreeHeld(Frame(mem[d][i]));
        }
        i := i + 1;
      }
      ok := KfreeHeld(d);
      GoneKernel(mem0, owner0, d, mem);
      if Private(mem0, owner0) {
        PrivateKept(mem0, owner0, mem, owner);
      }
    }

    /** One row of kmap into the directory d that setupkvm is building; mem0, owner0 and free0 are from before. */
    method MapRow(d: nat, j: nat, ghost mem0: Memory, ghost owner0: Owner, ghost free0: nat) returns (ok: bool, r: int)
      requires Valid() && DataPage(kdata) && j < 4 && IsDir(owner, d) && Foreign(owner0, d) &&
               Built(kdata, mem0, owner0, free0, d, j, mem, owner, |free|)
      modifies this`mem, this`freelist, this`free, this`owner
      ensures ok && Valid() && IsDir(owner, d) && (r == 0 || r == -1)
      ensures r == 0 ==> Built(kdata, mem0, owner0, free0, d, j + 1, mem, owner, |free|)
      ensures r == -1 ==> free0 < 64 && TablesAdded(owner0[d := Dir], owner, d) && AllKept(mem0, mem, owner0)
    {
      hide Lists, Pte, Tables, Built, Progress, AllKept, Whole, RowEntry;
      RowIs(kdata, j);
      RowFree(kdata, mem0, owner0, free0, d, j, mem, owner, |free|);
      var row := Kmaps(kdata)[j];
      ghost var mem1, owner1, free1, done := mem, owner, |free|, 0;
      ok, r, done := Mappages(d, row.virt, Size(row), row.start, row.perm);
      BuiltNext(kdata, mem0, owner0, free0, d, j, mem1, owner1, free1, done, mem, owner, |free|);
      assert d in owner0[d := Dir];
      if r < 0 {
        RowFails(kdata, mem0, owner0, free0, d, j, mem1, owner1, free1, done, mem, owner, |free|);
      }
    }

    /** setupkvm: a directory with the kernel's mappings, for which it takes 65 pages, or 0 and nothing taken. */
    method Setupkvm() returns (ok: bool, d: nat)
      requires Valid() && DataPage(kdata)
      modifies this`mem, this`freelist, this`free, this`owner
      ensures ok && Valid() && AllKept(old(mem), mem, old(owner)) && (d != 0 <==> |old(free)| >= 65)
      ensures d == 0 ==> owner == old(owner)
      ensures d != 0 ==>
                d !in old(owner) && d < NFRAMES && TablesAdded(old(owner)[d := Dir], owner, d) &&
                |free| + 65 == |old(free)|
      ensures d != 0 ==> forall v: nat :: v < VPAGES ==> Pte(mem, d, v) == KernelEntry(kdata, v)
      ensures d != 0 ==> forall i: nat :: i < ENTRIES ==> (Present(mem[d][i]) <==> InUse(0, i))
      ensures d != 0 ==> forall v: nat :: v < VPAGES ==> Allowed(mem, d, v) == KernelAccess(kdata, v)
      ensures d != 0 ==> forall v: nat :: UPAGES <= v < UPAGES + NFRAMES ==> Frame(Pte(mem, d, v)) == v - UPAGES
      ensures old(Private(mem, owner)) ==> Private(mem, owner)
    {
      hide Lists, Pte, Tables, Built, KernelEntry, InUse, TablesAdded, Foreign, Gone, Allowed, KernelAccess, Private;
      ghost var mem0, owner0 := mem, owner;
      d := ZeroedPage();
      if d == 0 {
        AllKeptSelf(mem, owner);
        return true, 0;
      }
      NewDir(mem, owner, d);
      owner := owner[d := Dir];
      assert owner == owner0[d := Dir];
      ghost var free0 := |free|;
      BuiltNone(kdata, mem0, owner0, d, mem, free0);
      NotIts(mem0, owner0, d);
      var j := 0;
      while j < 4
        invariant j <= 4 && Valid() && IsDir(owner, d) && Built(kdata, mem0, owner0, free0, d, j, mem, owner, |free|)
      {
        var r;
        ok, r := MapRow(d, j, mem0, owner0, free0);
        if r < 0 {
          GoneNew(owner0, owner, d);
          ok := Freevm(d);
          KeptKernel(mem0, owner0, mem);
          if Private(mem0, owner0) {
            PrivateKept(mem0, owner0, mem, owner);
          }
          return true, 0;
        }
        j := j + 1;
      }
      BuiltAll(kdata, mem0, owner0, free0, d, mem, owner, |free|);
      KernelAllowed(kdata, mem, owner, d);
      KernelFrames(kdata);
      if Private(mem0, owner0) {
        OneNewDir(owner0, owner, d);
        PrivateNew(kdata, mem0, owner0, mem, owner, d);
      }
      ok := true;
    }

    /** The body of allocuvm's loop: `r` is -1 where there is no page, -2 where there is no table to map page f with. */
    method AllocOne(d: nat, v: nat, ghost lo: nat, ghost mem0: Memory, ghost owner0: Owner, ghost free0: nat)
        returns (ok: bool, r: int, f: nat)
      requires Valid() && IsDir(owner0, d) && d < NFRAMES && lo <= v < UPAGES
      requires Grew(mem0, owner0, d, lo, v, mem, owner) && GrewCount(mem0[d], free0, lo, v, mem[d], |free|)
      modifies this`mem, this`freelist, this`free, this`owner
      ensures !Present(Pte(old(mem), d, v)) ==> ok
      ensures ok ==> Valid() && -2 <= r <= 0
      ensures ok && r == 0 ==>
                Grew(mem0, owner0, d, lo, v + 1, mem, owner) && GrewCount(mem0[d], free0, lo, v + 1, mem[d], |free|)
      ensures ok && r < 0 ==> free0 < GrowNeed(mem0[d], lo, v + 1)
      ensures ok && r == -1 ==> Grew(mem0, owner0, d, lo, v, mem, owner)
      ensures ok && r == -2 ==>
                f in owner && owner[f] == Held && f !in owner0 && Grew(mem0, owner0, d, lo, v, mem, owner - {f})
    {
      hide Lists, Tables, Progress, Whole, Grew, SameMaps, Pte, GrewCount, GrowNeed, Tabs, DirGrown;
      ghost var mem1, owner1, all := mem, owner, |free|;
      PageIndex(v);
      GrewDir(mem0, owner0, d, lo, v, mem, owner);
      f := ZeroedPage();
      if f == 0 {
        NoPageLeft(mem0[d], free0, lo, v, mem1[d]);
        return true, -1, 0;
      }
      SameMap(mem1, mem, owner, d, v);
      GrewNot(mem0, owner0, d, lo, v, mem1, owner1, f);
      ghost var free1, done := |free|, 0;
      HeldOne(owner, v, f);
      ok, r, done := Mappages(d, v * PGSIZE, PGSIZE, f * PGSIZE, PTE_W + PTE_U);
      if ok {
        GrewNext(mem0, owner0, d, lo, v, mem1, owner1, free1, f, done, mem, owner, |free|);
        ProgressDir(mem1[f := ZeroPage()], owner1[f := Held], free1, d, v, done, f, PTE_W + PTE_U, mem, owner, |free|);
        GrewCountNext(mem0[d], free0, lo, v, mem1[d], all, done, mem[d], |free|);
        r := if r < 0 then -2 else 0;
      }
    }

    /** allocuvm: `grown` says that pages were added up to newsz. If they could not all be had, those that were are
        given back, and only tables may have come. `ok` is false where a page to add is mapped already. */
    method Allocuvm(d: nat, oldsz: nat, newsz: nat) returns (ok: bool, r: nat, ghost grown: bool)
      requires Valid() && IsDir(owner, d) && oldsz < UINT && newsz < UINT
      modifies this`mem, this`freelist, this`free, this`owner
      ensures NoneMapped(old(mem), d, Pages(oldsz), Pages(newsz)) ==> ok
      ensures ok ==> Valid() && r == if newsz >= KERNBASE then 0 else if newsz < oldsz then oldsz
              else if grown then newsz else 0
      ensures newsz >= KERNBASE || newsz < oldsz ==> ok && mem == old(mem) && free == old(free) && owner == old(owner)
      ensures ok && grown ==>
                oldsz <= newsz < KERNBASE && Grew(old(mem), old(owner), d, Pages(oldsz), Pages(newsz), mem, owner)
      ensures d < NFRAMES && (ok && oldsz <= newsz < KERNBASE ==>
                (grown <==> |old(free)| >= GrowNeed(old(mem)[d], Pages(oldsz), Pages(newsz))))
      ensures ok && grown ==> |free| + GrowNeed(old(mem)[d], Pages(oldsz), Pages(newsz)) == |old(free)|
      ensures NoneMapped(old(mem), d, Pages(oldsz), Pages(newsz)) && oldsz <= newsz < KERNBASE && !grown ==>
                OnlyTables(old(mem), old(owner), d, Pages(oldsz), Pages(newsz), mem, owner)
      ensures ok && grown ==> forall y: nat :: y < VPAGES ==>
                Allowed(mem, d, y) == if Pages(oldsz) <= y < Pages(newsz) then FULL else Allowed(old(mem), d, y)
      ensures ok && old(Private(mem, owner)) ==> Private(mem, owner)
    {
      hide Lists, Tables, Whole, Grew, Pte, OnlyTables, NoneMapped, Dropped, Unmapped, Kept, GrewCount, GrowNeed,
        Allowed, Private, SameKernel;
      grown := false;
      DirInRange(mem, owner, d);
      if newsz >= KERNBASE {
        return true, 0, false;
      }
      if newsz < oldsz {
        return true, oldsz, false;
      }
      ghost var mem0, owner0, lo, hi := mem, owner, Pages(oldsz), Pages(newsz);
      ghost var free0 := |free|;
      GrewNone(mem, owner, d, lo);
      GrewCountNone(mem[d], free0, lo);
      var a := PgRoundUp(oldsz);
      ghost var v := lo;
      while a < newsz
        invariant lo <= v <= hi && a == v * PGSIZE && Valid() && Grew(mem0, owner0, d, lo, v, mem, owner)
        invariant GrewCount(mem0[d], free0, lo, v, mem[d], |free|)
        decreases newsz - a
      {
        PageIndex(v);
        GrewAbsent(mem0, owner0, d, lo, v, hi, mem, owner);
        var f, st;
        ok, st, f := AllocOne(d, a / PGSIZE, lo, mem0, owner0, free0);
        if !ok {
          return false, 0, false;
        }
        if st < 0 {
          GrowNeedGrows(mem0[d], lo, v + 1, hi);
          ok := GiveBack(d, oldsz, newsz, f, st == -2, v, mem0, owner0);
          if Private(mem0, owner0) {
            PrivateKept(mem0, owner0, mem, owner);
          }
          return ok, 0, false;
        }
        a, v := a + PGSIZE, v + 1;
      }
      GrewCountEnough(mem0[d], free0, lo, v, mem[d], |free|);
      GrewAllowed(mem0, owner0, d, lo, hi, mem, owner);
      GrewKernel(mem0, owner0, d, lo, hi, mem, owner);
      if Private(mem0, owner0) {
        PrivateKept(mem0, owner0, mem, owner);
      }
      ok, r, grown := true, newsz, true;
    }

    /** The error exits of allocuvm: drop the pages added, and free page f if it could not be mapped. */
    method GiveBack(d: nat, oldsz: nat, newsz: nat, f: nat, loose: bool, ghost v: nat, ghost mem0: Memory,
        ghost owner0: Owner) returns (ok: bool)
      requires Valid() && IsDir(owner0, d) && d < NFRAMES && oldsz <= newsz < KERNBASE &&
               Pages(oldsz) <= v <= Pages(newsz) && Tables(mem0, owner0)
      requires loose ==> f in owner && owner[f] == Held && f !in owner0
      requires Grew(mem0, owner0, d, Pages(oldsz), v, mem, if loose then owner - {f} else owner)
      modifies this`mem, this`freelist, this`free, this`owner
      ensures ok && Valid()
      ensures NoneMapped(mem0, d, Pages(oldsz), Pages(newsz)) ==>
              OnlyTables(mem0, owner0, d, Pages(oldsz), Pages(newsz), mem, owner)
      ensures SameKernel(mem0, owner0, mem, owner)
    {
      hide Lists, Tables, Whole, Grew, Pte, OnlyTables, NoneMapped, Dropped, Unmapped, Kept, SameMaps, SameKernel;
      ghost var mem1, owner1, extra := mem, owner, if loose then {f} else {};
      assert (if loose then owner - {f} else owner) == owner - extra;
      GrewDir(mem0, owner0, d, Pages(oldsz), v, mem, owner - extra);
      GrewKernel(mem0, owner0, d, Pages(oldsz), v, mem, owner - extra);
      HeldKernel(mem, owner - extra, owner);
      KernelTrans(mem0, owner0, mem, owner - extra, mem, owner);
      var r;
      ok, r := Deallocuvm(d, newsz, oldsz);
      KernelTrans(mem0, owner0, mem1, owner1, mem, owner);
      if NoneMapped(mem0, d, Pages(oldsz), Pages(newsz)) {
        GrewDropped(mem0, owner0, d, Pages(oldsz), v, Pages(newsz), extra, mem1, owner1, mem, owner);
      }
      if loose {
        ghost var mem2, owner2 := mem, owner;
        StillHeld(owner1, d, Pages(oldsz), Pages(newsz), f);
        ok := KfreeHeld(f);
        FreedKernel(mem2, owner2, f, mem, owner);
        KernelTrans(mem0, owner0, mem2, owner2, mem, owner);
        if NoneMapped(mem0, d, Pages(oldsz), Pages(newsz)) {
          OnlyTablesFreed(mem0, owner0, d, Pages(oldsz), Pages(newsz), mem2, owner, f, mem);
        }
      }
      assert owner - {} == owner;
    }

    /** The body of copyuvm's loop, for page v of directory d into directory d2: `r` is -1 where there is no page, -2
        where there is no table to map page m with; mem0, owner0 and free0 are from before the copy began. */
    method CopyOne(d: nat, d2: nat, v: nat, ghost mem0: Memory, ghost owner0: Owner, ghost free0: nat)
        returns (ok: bool, r: int, ghost m: nat)
      requires Valid() && Tables(mem0, owner0) && IsDir(owner0, d) && d < NFRAMES && v < UPAGES && Foreign(owner0, d2)
      requires Child(kdata, mem0, owner0, free0, d, d2, v, mem, owner, |free|)
      modifies this`mem, this`freelist, this`free, this`owner
      ensures Present(Pte(mem0, d, v)) ==> ok
      ensures ok ==> Valid() && IsDir(owner, d2) && AllKept(mem0, mem, owner0) && -2 <= r <= 0
      ensures ok && r == 0 ==> Child(kdata, mem0, owner0, free0, d, d2, v + 1, mem, owner, |free|)
      ensures ok && r == -1 ==> Gone(owner, d2) == owner0 && free0 == Need(v)
      ensures ok && r == -2 ==>
                m !in owner0 && Gone(owner, d2) == owner0[m := Held] && free0 == Need(v) + 1 && v % ENTRIES == 0
    {
      hide Lists, Tables, Progress, Whole, Child, Pte, Gone, Foreign, Tabs, SameMaps, Kept, TablesAdded, AllKept;
      m := 0;
      var a := v * PGSIZE;
      PageIndex(v);
      ChildMeans(kdata, mem0, owner0, free0, d, d2, v, mem, owner, |free|);
      var t := Walkpgdir(d, a, false);
      if t == 0 {
        ParentPage(mem, owner, d, v, 0);
        return false, 0, 0;
      }
      ParentPage(mem, owner, d, v, t);
      var e := mem[t][Ptx(a)];
      if !Present(e) {
        return false, 0, 0;
      }
      ghost var mem1, owner1, free1 := mem, owner, |free|;
      var page := Kalloc();
      m := page;
      if page == 0 {
        ChildGone(kdata, mem0, owner0, free0, d, d2, v, mem1, owner1, free1);
        return true, -1, 0;
      }
      PlainWrite(mem, owner, page, mem[Frame(e)]);
      PageWritten(end, mem, freelist, free, owner, page, mem[Frame(e)]);
      mem := mem[page := mem[Frame(e)]];
      SameMap(mem1, mem, owner, d2, v);
      HeldOne(owner, v, page);
      ghost var done;
      ok, r, done := Mappages(d2, a, PGSIZE, page * PGSIZE, e % PGSIZE);
      ChildNext(kdata, mem0, owner0, free0, d, d2, v, mem1, owner1, free1, page, done, mem, owner, |free|);
      if r < 0 {
        r := -2;
      }
    }

    /** copyuvm: a directory with the kernel's mappings and copies of the first Pages(sz) user pages of d, or 0. A
        failing copy takes nothing, except that it loses one page when Leaks says so. `ok` is false where a page is
        not mapped. */
    method Copyuvm(d: nat, sz: nat) returns (ok: bool, d2: nat, ghost lost: nat)
      requires Valid() && DataPage(kdata) && IsDir(owner, d) && sz <= KERNBASE
      modifies this`mem, this`freelist, this`free, this`owner
      ensures d < NFRAMES && ((forall y: nat :: y < Pages(sz) ==> Present(Pte(old(mem), d, y))) ==> ok)
      ensures ok ==> Valid() && AllKept(old(mem), mem, old(owner)) && (d2 != 0 <==> |old(free)| >= Need(Pages(sz)))
      ensures ok && d2 != 0 ==>
                d2 !in old(owner) &&
                Child(kdata, old(mem), old(owner), |old(free)|, d, d2, Pages(sz), mem, owner, |free|)
      ensures ok && d2 == 0 && !Leaks(|old(free)|, Pages(sz)) ==> owner == old(owner)
      ensures ok && d2 == 0 && Leaks(|old(free)|, Pages(sz)) ==>
              lost !in old(owner) && owner == old(owner)[lost := Held]
      ensures ok && d2 != 0 ==> d2 < NFRAMES && forall y: nat :: y < VPAGES ==>
                Allowed(mem, d2, y) == if y < Pages(sz) then Allowed(old(mem), d, y) else KernelAccess(kdata, y)
      ensures ok && old(Private(mem, owner)) ==> Private(mem, owner)
    {
      hide Lists, Tables, Child, Pte, Gone, Foreign, KernelEntry, InUse, TablesAdded, Leaks, Need, Allowed,
        KernelAccess, Private;
      DirInRange(mem, owner, d);
      ghost var mem0, owner0, free0, np := mem, owner, |free|, Pages(sz);
      lost := 0;
      NeedLeast(free0, np);
      ok, d2 := Setupkvm();
      if d2 == 0 {
        return true, 0, 0;
      }
      NotIts(mem0, owner0, d2);
      ChildNew(kdata, mem0, owner0, free0, d, d2, mem, owner, |free|);
      var i := 0;
      ghost var v := 0;
      while i < sz
        invariant i == v * PGSIZE && v <= np && Valid() &&
                  Child(kdata, mem0, owner0, free0, d, d2, v, mem, owner, |free|)
        decreases sz - i
      {
        NoLeak(v, np);
        var r;
        ghost var m;
        ok, r, m := CopyOne(d, d2, i / PGSIZE, mem0, owner0, free0);
        if !ok {
          return false, 0, 0;
        }
        if r < 0 {
          if r == -2 {
            IsLeak(v, np);
          }
          lost := m;
          ok := Freevm(d2);
          KeptKernel(mem0, owner0, mem);
          if Private(mem0, owner0) {
            HeldKernel(mem, owner0, owner);
            KernelTrans(mem0, owner0, mem, owner0, mem, owner);
            PrivateKept(mem0, owner0, mem, owner);
          }
          return true, 0, lost;
        }
        i, v := i + PGSIZE, v + 1;
      }
      ChildMeans(kdata, mem0, owner0, free0, d, d2, v, mem, owner, |free|);
      ForeignMeans(owner0, d2);
      CopyAllowed(kdata, mem0, owner0, free0, d, d2, np, mem, owner, |free|);
      if Private(mem0, owner0) {
        ChildDirs(kdata, mem0, owner0, free0, d, d2, np, mem, owner, |free|);
        PrivateNew(kdata, mem0, owner0, mem, owner, d2);
      }
      ok := true;
    }

    /** growproc on a process of size sz: the pages mapped stay those below its size, except when it is shrunk to
        nothing, which counts as an error after the pages are gone. */
    method Growproc(d: nat, sz: nat, n: int) returns (ok: bool, r: int, sz': nat)
      requires Valid() && IsDir(owner, d) && d < NFRAMES && sz < KERNBASE && -0x8000_0000 <= n < 0x8000_0000 &&
               UserExact(mem, d, sz)
      modifies this`mem, this`freelist, this`free, this`owner
      ensures ok && Valid() && (UserExact(mem, d, sz') <==> !(0 < sz && sz + n == 0))
      ensures sz' == (if r == 0 && sz + n >= 0 then sz + n else sz) && (r == -1 || r == 0)
      ensures n >= 0 ==>
                (r == 0 <==> sz + n < KERNBASE && |old(free)| >= GrowNeed(old(mem)[d], Pages(sz), Pages(sz + n)))
      ensures n < 0 ==> (r == -1 <==> sz + n == 0 || sz == 0)
      ensures n > 0 && r == 0 ==> forall y: nat :: y < UPAGES ==>
                Allowed(mem, d, y) == if Pages(sz) <= y < Pages(sz + n) then FULL else Allowed(old(mem), d, y)
      ensures old(Private(mem, owner)) ==> Private(mem, owner)
    {
      hide Lists, Tables, Pte, UserExact, NoneMapped, Grew, OnlyTables, Unmapped, Allowed, Private, SameKernel;
      sz' := sz;
      ok := true;
      ghost var mem0, owner0 := mem, owner;
      var size := sz;
      if n > 0 {
        ghost var grown;
        if sz + n < KERNBASE {
          ExactNone(mem, d, sz, sz + n);
        }
        ok, size, grown := Allocuvm(d, sz, sz + n);
        if grown {
          ExactGrown(mem0, owner0, d, sz, sz + n, mem, owner);
        } else if sz + n < KERNBASE {
          ExactKept(mem0, owner0, d, sz, sz + n, mem, owner);
        }
        if size == 0 {
          return ok, -1, sz;
        }
      } else if n < 0 {
        var newsz := (sz + n) % UINT;
        ok, size := Deallocuvm(d, sz, newsz);
        ExactShrunk(mem0, owner, d, sz, newsz, mem);
        if Private(mem0, owner0) {
          PrivateKept(mem0, owner0, mem, owner);
        }
        if size == 0 {
          return ok, -1, sz;
        }
      }
      sz', r := size, 0;
    }
  }
}
