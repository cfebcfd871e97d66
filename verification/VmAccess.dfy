/** Who may do what: the permissions of both levels of a page table together, through setupkvm, allocuvm and copyuvm. */
module VmAccess {
  import opened Basics
  import opened VmModel
  import opened VmSteps
  import opened VmKernel
  import opened VmUser

  const FULL: Access := Access(true, true, true)

  /** The kernel's half is closed to user mode, and its text cannot be written. */
  function KernelAccess(kdata: nat, v: nat): Access {
    if UPAGES <= v < UPAGES + EXTMEM / PGSIZE || UPAGES + kdata <= v < UPAGES + NFRAMES || DEVSPACE / PGSIZE <= v
    then Access(true, true, false)
    else if UPAGES + EXTMEM / PGSIZE <= v < UPAGES + kdata then Access(true, false, false)
    else NOTHING
  }

  lemma KernelBits(kdata: nat, v: nat)
    requires DataPage(kdata) && v < VPAGES
    ensures Bits(KernelEntry(kdata, v)) == KernelAccess(kdata, v)
  {
    hide Writable, User;
    if UPAGES <= v < UPAGES + NFRAMES {
      EntryPerm(v - UPAGES, 0);
      EntryPerm(v - UPAGES, PTE_W);
    } else if DEVSPACE / PGSIZE <= v {
      EntryPerm(v, PTE_W);
    }
  }

  /** Frame f is at its place above KERNBASE, so that the kernel can use every page it allocates. */
  lemma KernelFrames(kdata: nat)
    ensures forall v: nat :: UPAGES <= v < UPAGES + NFRAMES ==> Frame(KernelEntry(kdata, v)) == v - UPAGES
  {
  }

  lemma KernelAllowed(kdata: nat, mem: Memory, owner: Owner, d: nat)
    requires DataPage(kdata) && Tables(mem, owner) && IsDir(owner, d) && d < NFRAMES
    requires forall v: nat :: v < VPAGES ==> Pte(mem, d, v) == KernelEntry(kdata, v)
    ensures forall v: nat :: v < VPAGES ==> Allowed(mem, d, v) == KernelAccess(kdata, v)
  {
    hide Pte, Tables, Bits, Allowed, KernelEntry, KernelAccess;
    forall v: nat | v < VPAGES
      ensures Allowed(mem, d, v) == KernelAccess(kdata, v)
    {
      KernelBits(kdata, v);
      AllowedIs(mem, owner, d, v);
    }
  }

  /** Entries with the same flags allow the same. */
  lemma SameFlags(e: word, e0: word)
    requires e % PGSIZE == e0 % PGSIZE
    ensures Bits(e) == Bits(e0)
  {
    hide Writable, User;
    var perm := e % PGSIZE;
    FlagParity(e);
    FlagParity(e0);
    if perm % 2 == 1 {
      FlagBits(e, perm);
      FlagBits(e0, perm);
    }
  }

  lemma FlagParity(e: word)
    ensures e % 2 == e % PGSIZE % 2
  {
    assert e == 2 * (0x800 * (e / PGSIZE)) + e % PGSIZE;
  }

  lemma FreshBits(mem: Memory, e: word)
    requires FreshPage(mem, e)
    ensures Bits(e) == FULL
  {
    FlagBits(e, RWU);
  }

  /** The pages that allocuvm adds can be read and written in user mode, as far as both levels are concerned; for other
      pages nothing has changed. */
  lemma GrewAllowed(mem0: Memory, owner0: Owner, d: nat, lo: nat, hi: nat, mem: Memory, owner: Owner)
    requires Tables(mem0, owner0) && Tables(mem, owner) && Grew(mem0, owner0, d, lo, hi, mem, owner) &&
             IsDir(owner0, d) && d < NFRAMES
    ensures forall y: nat :: y < VPAGES ==>
              Allowed(mem, d, y) == if lo <= y < hi then FULL else Allowed(mem0, d, y)
  {
    GrewDir(mem0, owner0, d, lo, hi, mem, owner);
    hide Pte, Tables, Bits, Allowed, FreshPage;
    forall y: nat | y < VPAGES
      ensures Allowed(mem, d, y) == if lo <= y < hi then FULL else Allowed(mem0, d, y)
    {
      AllowedIs(mem0, owner0, d, y);
      AllowedIs(mem, owner, d, y);
      if lo <= y < hi {
        FreshBits(mem, Pte(mem, d, y));
      }
    }
  }

  /** The child may do with each page what the parent may. */
  lemma CopyAllowed(kdata: nat, mem0: Memory, owner0: Owner, free0: nat, d: nat, d2: nat, np: nat, mem: Memory,
      owner: Owner, free: nat)
    requires DataPage(kdata) && Tables(mem0, owner0) && Tables(mem, owner) && IsDir(owner0, d) && np <= UPAGES
    requires Child(kdata, mem0, owner0, free0, d, d2, np, mem, owner, free)
    ensures forall y: nat :: y < VPAGES ==>
              Allowed(mem, d2, y) == if y < np then Allowed(mem0, d, y) else KernelAccess(kdata, y)
  {
    hide Pte, Tables, Bits, Allowed, KernelEntry, KernelAccess, InUse, AllKept;
    forall y: nat | y < VPAGES
      ensures Allowed(mem, d2, y) == if y < np then Allowed(mem0, d, y) else KernelAccess(kdata, y)
    {
      AllowedIs(mem0, owner0, d, y);
      AllowedIs(mem, owner, d2, y);
      KernelBits(kdata, y);
      if y < np {
        assert Copied(mem0, Pte(mem0, d, y), mem, Pte(mem, d2, y));
        SameFlags(Pte(mem, d2, y), Pte(mem0, d, y));
      }
    }
  }

  // ---------------------------------------------------------------- the kernel's half stays private

  lemma KernelTrans(mem0: Memory, owner0: Owner, mem1: Memory, owner1: Owner, mem2: Memory, owner2: Owner)
    requires SameKernel(mem0, owner0, mem1, owner1) && SameKernel(mem1, owner1, mem2, owner2)
    ensures SameKernel(mem0, owner0, mem2, owner2)
  {
    hide Pte;
    forall d: nat, v: nat | IsDir(owner2, d) && d < NFRAMES && UPAGES <= v < VPAGES
      ensures Pte(mem2, d, v) == Pte(mem0, d, v) && IsDir(owner0, d)
    {
      assert Pte(mem2, d, v) == Pte(mem1, d, v) && IsDir(owner1, d);
      assert Pte(mem1, d, v) == Pte(mem0, d, v) && IsDir(owner0, d);
    }
  }

  lemma GrewKernel(mem0: Memory, owner0: Owner, d: nat, lo: nat, v: nat, mem: Memory, owner: Owner)
    requires Grew(mem0, owner0, d, lo, v, mem, owner) && v <= UPAGES
    ensures SameKernel(mem0, owner0, mem, owner)
  {
    hide Pte, Kept, FreshPage;
  }

  lemma UnmappedKernel(mem0: Memory, owner0: Owner, d: nat, lo: nat, hi: nat, mem: Memory, owner: Owner)
    requires Unmapped(mem0, mem, owner, d, lo, hi) && owner == Dropped(owner0, d, lo, hi) && hi <= UPAGES
    ensures SameKernel(mem0, owner0, mem, owner)
  {
    hide Pte;
  }

  lemma FreedKernel(mem0: Memory, owner0: Owner, f: nat, mem: Memory, owner: Owner)
    requires SameMaps(mem0, mem, owner) && owner == owner0 - {f}
    ensures SameKernel(mem0, owner0, mem, owner)
  {
    hide Pte;
  }

  /** Held pages come and go without a directory changing. */
  lemma HeldKernel(mem: Memory, owner: Owner, owner': Owner)
    requires forall d: nat :: IsDir(owner', d) ==> IsDir(owner, d)
    ensures SameKernel(mem, owner, mem, owner')
  {
  }

  lemma TableKept(mem0: Memory, owner0: Owner, mem: Memory, x: nat, v: nat)
    requires Tables(mem0, owner0) && IsDir(owner0, x) && x < NFRAMES && v < VPAGES && mem[x] == mem0[x]
    requires forall t :: t in owner0 && t < NFRAMES && owner0[t] == Table(x, v / ENTRIES) ==> mem[t] == mem0[t]
    ensures Pte(mem, x, v) == Pte(mem0, x, v)
  {
    hide Writable, User;
    assert EntryOk(mem0, owner0, x, v / ENTRIES);
  }

  lemma GonePte(mem0: Memory, owner0: Owner, d: nat, mem: Memory, x: nat, v: nat)
    requires Tables(mem0, owner0) && IsDir(owner0, d) && AllKept(mem0, mem, Gone(owner0, d))
    requires IsDir(Gone(owner0, d), x) && x < NFRAMES && v < VPAGES
    ensures Pte(mem, x, v) == Pte(mem0, x, v) && IsDir(owner0, x)
  {
    hide Pte, Tables;
    assert x in Gone(owner0, d);
    forall t | t in owner0 && t < NFRAMES && owner0[t] == Table(x, v / ENTRIES)
      ensures mem[t] == mem0[t]
    {
      assert t in Gone(owner0, d);
    }
    TableKept(mem0, owner0, mem, x, v);
  }

  /** What is left when a directory has gone keeps its mappings. */
  lemma GoneKernel(mem0: Memory, owner0: Owner, d: nat, mem: Memory)
    requires Tables(mem0, owner0) && IsDir(owner0, d) && AllKept(mem0, mem, Gone(owner0, d))
    ensures SameKernel(mem0, owner0, mem, Gone(owner0, d))
  {
    hide Pte, Tables, Gone, AllKept;
    var owner := Gone(owner0, d);
    forall x: nat, v: nat | IsDir(owner, x) && x < NFRAMES && UPAGES <= v < VPAGES
      ensures Pte(mem, x, v) == Pte(mem0, x, v) && IsDir(owner0, x)
    {
      GonePte(mem0, owner0, d, mem, x, v);
    }
  }

  lemma KeptKernel(mem0: Memory, owner0: Owner, mem: Memory)
    requires Tables(mem0, owner0) && AllKept(mem0, mem, owner0)
    ensures SameKernel(mem0, owner0, mem, owner0)
  {
    hide Pte, Tables, AllKept;
    forall x: nat, v: nat | IsDir(owner0, x) && x < NFRAMES && UPAGES <= v < VPAGES
      ensures Pte(mem, x, v) == Pte(mem0, x, v) && IsDir(owner0, x)
    {
      KeptPte(mem0, owner0, x, v, mem);
    }
  }

  lemma AllKeptSelf(mem: Memory, owner: Owner)
    ensures AllKept(mem, mem, owner)
  {
  }

  lemma OneNewDir(owner0: Owner, owner: Owner, d: nat)
    requires TablesAdded(owner0[d := Dir], owner, d)
    ensures forall x: nat :: IsDir(owner, x) ==> x == d || IsDir(owner0, x)
  {
  }

  lemma ChildDirs(kdata: nat, mem0: Memory, owner0: Owner, free0: nat, d: nat, d2: nat, v: nat, mem: Memory,
      owner: Owner, free: nat)
    requires Child(kdata, mem0, owner0, free0, d, d2, v, mem, owner, free)
    ensures d2 < NFRAMES && forall x: nat :: IsDir(owner, x) ==> x == d2 || IsDir(owner0, x)
  {
  }

  /** A new directory with the kernel's half, where all else is as it was. */
  lemma PrivateNew(kdata: nat, mem0: Memory, owner0: Owner, mem: Memory, owner: Owner, d2: nat)
    requires Tables(mem0, owner0) && Tables(mem, owner) && AllKept(mem0, mem, owner0) && Private(mem0, owner0)
    requires forall x: nat :: IsDir(owner, x) ==> x == d2 || IsDir(owner0, x)
    requires d2 < NFRAMES && forall v: nat :: UPAGES <= v < VPAGES ==> Allowed(mem, d2, v) == KernelAccess(kdata, v)
    ensures Private(mem, owner)
  {
    hide Pte, Tables, Bits, Allowed;
    forall x: nat, v: nat | IsDir(owner, x) && x < NFRAMES && UPAGES <= v < VPAGES
      ensures !Allowed(mem, x, v).user
    {
      if x == d2 {
        assert Allowed(mem, d2, v) == KernelAccess(kdata, v);
      } else {
        KeptPte(mem0, owner0, x, v, mem);
        AllowedIs(mem0, owner0, x, v);
        AllowedIs(mem, owner, x, v);
      }
    }
  }
}
