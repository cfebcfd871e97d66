/** A machine on which fork loses a page: one with just so much memory that copyuvm runs out between taking a page
    and taking the table that the page hangs from. */
module VmLeak {
  import opened Basics
  import opened VmModel
  import opened VmSteps
  import opened VmKernel
  import opened VmUser
  import opened VmCode

  const FRAMES: nat := 133 // 65 for a kernel mapping, 2 for a page and its table, 66 to copy that with

  /** The end of a kernel that leaves FRAMES frames. */
  const END: nat := KERNBASE + (NFRAMES - FRAMES) * PGSIZE

  lemma ManagedIs(f: nat)
    ensures Managed(END, f) <==> NFRAMES - FRAMES <= f < NFRAMES
    ensures WholePage(END, KERNBASE + PHYSTOP, f) <==> NFRAMES - FRAMES <= f < NFRAMES
  {
  }

  /** When nobody has a frame, all of them are free. */
  lemma AllFree(free: seq<nat>)
    requires Whole(END, free, map[]) && forall j: nat, k: nat :: j < k < |free| ==> free[j] != free[k]
    ensures |free| == FRAMES
  {
    var low := seq(|free|, k requires 0 <= k < |free| => if free[k] >= NFRAMES - FRAMES then
        free[k] - (NFRAMES - FRAMES) else 0);
    forall k: nat | k < |free|
      ensures NFRAMES - FRAMES <= free[k] < NFRAMES
    {
      assert free[k] in free;
      ManagedIs(free[k]);
    }
    DistinctCard(low);
    forall x: nat | x < FRAMES
      ensures x in Elements(low)
    {
      var f: nat := x + NFRAMES - FRAMES;
      ManagedIs(f);
      var k: nat :| k < |free| && free[k] == f;
      assert low[k] == x;
    }
    BelowCard(Elements(low), FRAMES);
  }

  lemma FirstPageNeeds(p: Page)
    requires !Present(p[0])
    ensures GrowNeed(p, 0, 1) == 2
  {
  }

  /** At boot every managed frame is held, and freerange lets go of them all. */
  lemma BootHeld(owner: Owner)
    requires Whole(END, [], owner) && forall f :: f in owner ==> owner[f] == Held
    ensures forall f: nat :: WholePage(END, KERNBASE + PHYSTOP, f) ==> f in owner && owner[f] == Held
    ensures (map f | f in owner && !WholePage(END, KERNBASE + PHYSTOP, f) :: owner[f]) == map[]
  {
    forall f: nat | WholePage(END, KERNBASE + PHYSTOP, f)
      ensures f in owner && owner[f] == Held
    {
      ManagedIs(f);
    }
    forall f: nat | f in owner
      ensures WholePage(END, KERNBASE + PHYSTOP, f)
    {
      ManagedIs(f);
    }
  }

  /** A new address space has no user page, and nothing where the table of its first page goes. */
  lemma NoUserPage(kdata: nat, mem: Memory, d: nat)
    requires d < NFRAMES && (forall v: nat :: v < VPAGES ==> Pte(mem, d, v) == KernelEntry(kdata, v))
    requires forall i: nat :: i < ENTRIES ==> (Present(mem[d][i]) <==> InUse(0, i))
    ensures NoneMapped(mem, d, 0, 1) && !Present(mem[d][0])
  {
    assert Pte(mem, d, 0) == KernelEntry(kdata, 0) == 0;
    assert !InUse(0, 0);
  }

  lemma FirstPageThere(mem0: Memory, owner0: Owner, d: nat, mem: Memory, owner: Owner)
    requires IsDir(owner0, d) && d < NFRAMES && Grew(mem0, owner0, d, 0, 1, mem, owner)
    ensures IsDir(owner, d) && forall y: nat :: y < 1 ==> Present(Pte(mem, d, y))
  {
  }

  lemma OnePage()
    ensures Pages(0) == 0 && Pages(PGSIZE) == 1 && PGSIZE < KERNBASE && Need(1) == 67 && Leaks(66, 1)
  {
    LeakExample();
  }

  /** Boot, make an address space, give it one page and copy it: the copy fails, and one frame more is held, by
      nobody, than before it. */
  method CopyLosesPage() returns (vm: Vm, d: nat, ghost before: Owner, ghost lost: nat)
    ensures fresh(vm) && vm.Valid() && IsDir(before, d) && lost !in before && vm.owner == before[lost := Held]
  {
    hide Tables, LinkAt, Whole, Pte, GrowNeed, Grew, Leaks, KernelEntry, AllKept, Need, Pages, NoneMapped, Child;
    OnePage();
    vm := new Vm(END, NFRAMES - 1);
    BootHeld(vm.owner);
    var ok := vm.Freerange(END, KERNBASE + PHYSTOP);
    AllFree(vm.free);
    ok, d := vm.Setupkvm();
    NoUserPage(vm.kdata, vm.mem, d);
    FirstPageNeeds(vm.mem[d]);
    ghost var mem0, owner0 := vm.mem, vm.owner;
    var r;
    ghost var grown;
    ok, r, grown := vm.Allocuvm(d, 0, PGSIZE);
    FirstPageThere(mem0, owner0, d, vm.mem, vm.owner);
    before := vm.owner;
    var d2;
    ok, d2, lost := vm.Copyuvm(d, PGSIZE);
  }
}
