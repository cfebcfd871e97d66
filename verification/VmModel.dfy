/** Two-level page tables over physical page frames (vm.c), and the page allocator's free list (kalloc.c). */
module VmModel {
  import opened Basics

  const PGSIZE: nat := 4096
  const ENTRIES: nat := 1024       // words in a page; entries of a directory or table
  const KERNBASE: nat := 0x8000_0000
  const PHYSTOP: nat := 0xE00_0000
  const NFRAMES: nat := PHYSTOP / PGSIZE
  const UPAGES: nat := KERNBASE / PGSIZE // user pages of an address space
  const VPAGES: nat := ENTRIES * ENTRIES

  const PTE_P: nat := 1
  const PTE_W: nat := 2
  const PTE_U: nat := 4

  type Page = s: seq<word> | |s| == ENTRIES witness seq(ENTRIES, i => 0)
  type Memory = s: seq<Page> | |s| == NFRAMES witness seq<Page>(NFRAMES, i => ZeroPage())

  predicate Present(e: word) {
    e % 2 == 1
  }

  predicate Writable(e: word) {
    e / PTE_W % 2 == 1
  }

  predicate User(e: word) {
    e / PTE_U % 2 == 1
  }

  /** The frame an entry names. */
  function Frame(e: word): nat {
    e / PGSIZE
  }

  lemma EntryBits(f: nat, flags: nat)
    requires f < 0x10_0000 && flags < PGSIZE && flags % 2 == 1
    ensures var e := f * PGSIZE + flags; e < 0x1_0000_0000 && e % 2 == 1 && e / PGSIZE == f && e % PGSIZE == flags
  {
    assert f * PGSIZE + flags == 2 * (0x800 * f + flags / 2) + 1;
  }

  /** The entry for frame f with these permission bits, present. */
  function Entry(f: nat, perm: nat): (e: word)
    requires f < 0x10_0000 && perm < PGSIZE
    ensures Present(e) && Frame(e) == f
  {
    EntryBits(f, perm - perm % 2 + 1);
    f * PGSIZE + (perm - perm % 2 + 1)
  }

  lemma EntryPerm(f: nat, perm: nat)
    requires f < 0x10_0000 && perm < PGSIZE
    ensures Entry(f, perm) % PGSIZE == perm - perm % 2 + 1
    ensures Writable(Entry(f, perm)) <==> perm / PTE_W % 2 == 1
    ensures User(Entry(f, perm)) <==> perm / PTE_U % 2 == 1
  {
    EntryBits(f, perm - perm % 2 + 1);
    FlagBits(Entry(f, perm), perm);
  }

  /** The bits of an entry are those of its flags. */
  lemma FlagBits(e: word, perm: nat)
    requires e % PGSIZE == perm - perm % 2 + 1
    ensures (Writable(e) <==> perm / PTE_W % 2 == 1) && (User(e) <==> perm / PTE_U % 2 == 1)
  {
    var q, flags := e / PGSIZE, perm - perm % 2 + 1;
    Halves(q, flags);
    assert e == 0x1000 * q + flags;
    assert flags / 2 == perm / 2 && flags / 4 == perm / 4;
    Even(0x400 * q, flags / 2);
    Even(0x200 * q, flags / 4);
  }

  lemma Halves(q: nat, r: nat)
    ensures (0x1000 * q + r) / 2 == 2 * (0x400 * q) + r / 2
    ensures (0x1000 * q + r) / 4 == 2 * (0x200 * q) + r / 4
  {
  }

  lemma Even(a: nat, b: nat)
    ensures (2 * a + b) % 2 == b % 2
  {
  }

  /** The entry for virtual page v in directory d, 0 where its table is missing. */
  function Pte(mem: Memory, d: nat, v: nat): word
    requires d < NFRAMES && v < VPAGES
  {
    var pde := mem[d][v / ENTRIES];
    if Present(pde) && Frame(pde) < NFRAMES then mem[Frame(pde)][v % ENTRIES] else 0
  }

  /** What a page frame outside the free list is for; Held means kalloc handed it out and it is in no address space. */
  datatype Use = Dir | Table(d: nat, i: nat) | Data(d: nat, v: nat) | Held

  type Owner = map<nat, Use>

  /** A page frame that has an owner is where its owner says. */
  ghost predicate UseOk(mem: Memory, owner: Owner, f: nat)
    requires f in owner
  {
    f < NFRAMES &&
    match owner[f]
    case Dir => true
    case Table(d, i) => d in owner && d < NFRAMES && owner[d] == Dir && i < ENTRIES && Present(mem[d][i]) &&
      Frame(mem[d][i]) == f
    case Data(d, v) => d in owner && d < NFRAMES && owner[d] == Dir && v < UPAGES && Present(Pte(mem, d, v)) &&
      Frame(Pte(mem, d, v)) == f
    case Held => true
  }

  ghost predicate IsDir(owner: Owner, d: nat) {
    d in owner && owner[d] == Dir
  }

  /** A directory entry in use names a table that belongs to just that entry, and withholds no permission: what is
      allowed is decided by the entries of the table. */
  ghost predicate EntryOk(mem: Memory, owner: Owner, d: nat, i: nat)
    requires d < NFRAMES && i < ENTRIES
  {
    Present(mem[d][i]) ==>
      Frame(mem[d][i]) in owner && owner[Frame(mem[d][i])] == Table(d, i) && Writable(mem[d][i]) && User(mem[d][i])
  }

  /** A mapped user page is a frame that belongs to just that page of just that directory. */
  ghost predicate PageOk(mem: Memory, owner: Owner, d: nat, v: nat)
    requires d < NFRAMES && v < VPAGES
  {
    v < UPAGES && Present(Pte(mem, d, v)) ==>
      Frame(Pte(mem, d, v)) in owner && owner[Frame(Pte(mem, d, v))] == Data(d, v)
  }

  ghost predicate Tables(mem: Memory, owner: Owner) {
    (forall f :: f in owner ==> UseOk(mem, owner, f)) &&
    (forall d: nat, i: nat :: IsDir(owner, d) && d < NFRAMES && i < ENTRIES ==> EntryOk(mem, owner, d, i)) &&
    forall d: nat, v: nat :: IsDir(owner, d) && d < NFRAMES && v < VPAGES ==> PageOk(mem, owner, d, v)
  }

  lemma DirInRange(mem: Memory, owner: Owner, d: nat)
    requires Tables(mem, owner) && IsDir(owner, d)
    ensures d < NFRAMES
  {
  }

  /** Every directory maps what it mapped. */
  ghost predicate SameMaps(mem: Memory, mem': Memory, owner: Owner) {
    forall d: nat, v: nat :: IsDir(owner, d) && d < NFRAMES && v < VPAGES ==> Pte(mem', d, v) == Pte(mem, d, v)
  }

  // ---------------------------------------------------------------- what the hardware allows

  /** What may be done at a virtual page: nothing, or reading, writing, and both also in user mode. */
  datatype Access = Access(present: bool, write: bool, user: bool)

  const NOTHING: Access := Access(false, false, false)

  function Bits(e: word): Access {
    if Present(e) then Access(true, Writable(e), User(e)) else NOTHING
  }

  /** The hardware allows what the directory entry and the table entry both do. */
  function Allowed(mem: Memory, d: nat, v: nat): Access
    requires d < NFRAMES && v < VPAGES
  {
    var a, b := Bits(mem[d][v / ENTRIES]), Bits(Pte(mem, d, v));
    if a.present && b.present then Access(true, a.write && b.write, a.user && b.user) else NOTHING
  }

  /** In a directory of ours the table entry decides. */
  lemma AllowedIs(mem: Memory, owner: Owner, d: nat, v: nat)
    requires Tables(mem, owner) && IsDir(owner, d) && d < NFRAMES && v < VPAGES
    ensures Allowed(mem, d, v) == Bits(Pte(mem, d, v))
  {
    hide Writable, User;
    assert EntryOk(mem, owner, d, v / ENTRIES);
  }

  /** No page of the kernel's half is open to user mode in any directory. */
  ghost predicate Private(mem: Memory, owner: Owner) {
    forall d: nat, v: nat :: IsDir(owner, d) && d < NFRAMES && UPAGES <= v < VPAGES ==> !Allowed(mem, d, v).user
  }

  /** There are no new directories, and the kernel's halves are mapped as before. */
  ghost predicate SameKernel(mem0: Memory, owner0: Owner, mem: Memory, owner: Owner) {
    forall d: nat, v: nat :: IsDir(owner, d) && d < NFRAMES && UPAGES <= v < VPAGES ==>
      Pte(mem, d, v) == Pte(mem0, d, v) && IsDir(owner0, d)
  }

  lemma PrivateKept(mem0: Memory, owner0: Owner, mem: Memory, owner: Owner)
    requires Tables(mem0, owner0) && Tables(mem, owner) && Private(mem0, owner0)
    requires SameKernel(mem0, owner0, mem, owner)
    ensures Private(mem, owner)
  {
    hide Pte, Tables, Bits, Allowed;
    forall d: nat, v: nat | IsDir(owner, d) && d < NFRAMES && UPAGES <= v < VPAGES
      ensures !Allowed(mem, d, v).user
    {
      assert Pte(mem, d, v) == Pte(mem0, d, v) && IsDir(owner0, d);
      AllowedIs(mem0, owner0, d, v);
      AllowedIs(mem, owner, d, v);
    }
  }

  // ---------------------------------------------------------------- single steps

  /** Writing a page that is neither a directory nor a table changes no mapping. */
  lemma PlainWrite(mem: Memory, owner: Owner, f: nat, p: Page)
    requires Tables(mem, owner) && f < NFRAMES && (f in owner ==> owner[f].Held? || owner[f].Data?)
    ensures Tables(mem[f := p], owner) && SameMaps(mem, mem[f := p], owner)
  {
    var mem' := mem[f := p];
    forall d: nat, v: nat | IsDir(owner, d) && d < NFRAMES && v < VPAGES
      ensures Pte(mem', d, v) == Pte(mem, d, v) && PageOk(mem', owner, d, v)
    {
      assert EntryOk(mem, owner, d, v / ENTRIES);
      assert PageOk(mem, owner, d, v);
    }
    forall d: nat, i: nat | IsDir(owner, d) && d < NFRAMES && i < ENTRIES
      ensures EntryOk(mem', owner, d, i)
    {
      assert EntryOk(mem, owner, d, i);
    }
    forall g | g in owner
      ensures UseOk(mem', owner, g)
    {
      assert UseOk(mem, owner, g);
    }
  }

  /** A page nobody names may be taken by the allocator's caller. */
  lemma Taken(mem: Memory, owner: Owner, f: nat)
    requires Tables(mem, owner) && f < NFRAMES && f !in owner
    ensures Tables(mem, owner[f := Held])
  {
    var owner' := owner[f := Held];
    forall g | g in owner'
      ensures UseOk(mem, owner', g)
    {
      if g != f {
        assert UseOk(mem, owner, g);
      }
    }
    forall d: nat, i: nat | IsDir(owner', d) && d < NFRAMES && i < ENTRIES
      ensures EntryOk(mem, owner', d, i)
    {
      assert EntryOk(mem, owner, d, i);
    }
    forall d: nat, v: nat | IsDir(owner', d) && d < NFRAMES && v < VPAGES
      ensures PageOk(mem, owner', d, v)
    {
      assert PageOk(mem, owner, d, v);
    }
  }

  /** And a held page, which nobody names, may be given up. */
  lemma GivenUp(mem: Memory, owner: Owner, f: nat)
    requires Tables(mem, owner) && f in owner && owner[f] == Held
    ensures Tables(mem, owner - {f})
  {
    var owner' := owner - {f};
    forall g | g in owner'
      ensures UseOk(mem, owner', g)
    {
      assert UseOk(mem, owner, g);
    }
    forall d: nat, i: nat | IsDir(owner', d) && d < NFRAMES && i < ENTRIES
      ensures EntryOk(mem, owner', d, i)
    {
      assert EntryOk(mem, owner, d, i);
    }
    forall d: nat, v: nat | IsDir(owner', d) && d < NFRAMES && v < VPAGES
      ensures PageOk(mem, owner', d, v)
    {
      assert PageOk(mem, owner, d, v);
    }
  }

  function ZeroPage(): Page {
    seq(ENTRIES, i => 0)
  }

  /** The directory with an empty table hung in at entry i. */
  function Hung(mem: Memory, d: nat, i: nat, t: nat): Memory
    requires d < NFRAMES && i < ENTRIES && t < NFRAMES
  {
    mem[d := mem[d][i := Entry(t, PTE_P + PTE_W + PTE_U)]]
  }

  lemma HungPte(mem: Memory, owner: Owner, d: nat, i: nat, t: nat, x: nat, v: nat)
    requires Tables(mem, owner) && IsDir(owner, d) && d < NFRAMES && i < ENTRIES && !Present(mem[d][i])
    requires t in owner && t < NFRAMES && owner[t] == Held && mem[t] == ZeroPage() && IsDir(owner, x) && x < NFRAMES &&
             v < VPAGES
    ensures Pte(Hung(mem, d, i, t), x, v) == Pte(mem, x, v)
  {
    assert EntryOk(mem, owner, x, v / ENTRIES);
  }

  lemma HungTables(mem: Memory, owner: Owner, d: nat, i: nat, t: nat)
    requires Tables(mem, owner) && IsDir(owner, d) && d < NFRAMES && i < ENTRIES && !Present(mem[d][i])
    requires t in owner && t < NFRAMES && owner[t] == Held && mem[t] == ZeroPage()
    ensures Tables(Hung(mem, d, i, t), owner[t := Table(d, i)]) && SameMaps(mem, Hung(mem, d, i, t), owner)
  {
    var mem', owner' := Hung(mem, d, i, t), owner[t := Table(d, i)];
    EntryPerm(t, PTE_P + PTE_W + PTE_U);
    hide Writable, User;
    forall x: nat, v: nat | IsDir(owner, x) && x < NFRAMES && v < VPAGES
      ensures Pte(mem', x, v) == Pte(mem, x, v) && PageOk(mem', owner', x, v)
    {
      HungPte(mem, owner, d, i, t, x, v);
      assert PageOk(mem, owner, x, v);
    }
    hide Pte;
    forall x: nat, k: nat | IsDir(owner', x) && x < NFRAMES && k < ENTRIES
      ensures EntryOk(mem', owner', x, k)
    {
      assert EntryOk(mem, owner, x, k);
    }
    forall g | g in owner'
      ensures UseOk(mem', owner', g)
    {
      assert UseOk(mem, owner, g);
    }
  }

  /** The memory with entry j of table page t changed. */
  function WithPte(mem: Memory, t: nat, j: nat, e: word): Memory
    requires t < NFRAMES && j < ENTRIES
  {
    mem[t := mem[t][j := e]]
  }

  lemma WithPtePte(mem: Memory, owner: Owner, d: nat, v: nat, t: nat, e: word, x: nat, y: nat)
    requires Tables(mem, owner) && IsDir(owner, d) && v < VPAGES && t in owner && t < NFRAMES &&
             owner[t] == Table(d, v / ENTRIES)
    requires IsDir(owner, x) && x < NFRAMES && y < VPAGES
    ensures Pte(WithPte(mem, t, v % ENTRIES, e), x, y) == if (x, y) == (d, v) then e else Pte(mem, x, y)
  {
    assert UseOk(mem, owner, t);
    assert EntryOk(mem, owner, x, y / ENTRIES);
  }

  /** Entry v of directory d, and no other entry of any directory, has become e. */
  ghost predicate OneMap(mem: Memory, mem': Memory, owner: Owner, d: nat, v: nat, e: word) {
    forall x: nat, y: nat :: IsDir(owner, x) && x < NFRAMES && y < VPAGES ==>
      Pte(mem', x, y) == if (x, y) == (d, v) then e else Pte(mem, x, y)
  }

  lemma WithPteMaps(mem: Memory, owner: Owner, d: nat, v: nat, t: nat, e: word)
    requires Tables(mem, owner) && IsDir(owner, d) && v < VPAGES && t in owner && t < NFRAMES &&
             owner[t] == Table(d, v / ENTRIES)
    ensures OneMap(mem, WithPte(mem, t, v % ENTRIES, e), owner, d, v, e)
  {
    hide Pte, Tables, WithPte;
    forall x: nat, y: nat | IsDir(owner, x) && x < NFRAMES && y < VPAGES
      ensures Pte(WithPte(mem, t, v % ENTRIES, e), x, y) == if (x, y) == (d, v) then e else Pte(mem, x, y)
    {
      WithPtePte(mem, owner, d, v, t, e, x, y);
    }
  }

  /** The owners after page v of directory d got entry e: a user page takes over the held frame. */
  function Mapped(owner: Owner, d: nat, v: nat, e: word): Owner {
    if v < UPAGES then owner[Frame(e) := Data(d, v)] else owner
  }

  /** Mapping a page that was not mapped: a user page to a held frame, a kernel page to anything. */
  lemma MapTables(mem: Memory, owner: Owner, d: nat, v: nat, t: nat, e: word)
    requires Tables(mem, owner) && IsDir(owner, d) && d < NFRAMES && v < VPAGES && t in owner && t < NFRAMES &&
             owner[t] == Table(d, v / ENTRIES)
    requires !Present(Pte(mem, d, v)) && Present(e) && (v < UPAGES ==> Frame(e) in owner && owner[Frame(e)] == Held)
    ensures Tables(WithPte(mem, t, v % ENTRIES, e), Mapped(owner, d, v, e))
  {
    var mem', owner' := WithPte(mem, t, v % ENTRIES, e), Mapped(owner, d, v, e);
    WithPteMaps(mem, owner, d, v, t, e);
    assert UseOk(mem, owner, t);
    hide Pte;
    forall x: nat, y: nat | IsDir(owner', x) && x < NFRAMES && y < VPAGES
      ensures PageOk(mem', owner', x, y)
    {
      assert PageOk(mem, owner, x, y);
    }
    forall x: nat, k: nat | IsDir(owner', x) && x < NFRAMES && k < ENTRIES
      ensures EntryOk(mem', owner', x, k)
    {
      assert EntryOk(mem, owner, x, k);
    }
    forall g | g in owner'
      ensures UseOk(mem', owner', g)
    {
      assert UseOk(mem, owner, g);
    }
  }

  /** Unmapping a user page gives its frame back to be held. */
  lemma UnmapTables(mem: Memory, owner: Owner, d: nat, v: nat, t: nat)
    requires Tables(mem, owner) && IsDir(owner, d) && d < NFRAMES && v < UPAGES && t in owner && t < NFRAMES &&
             owner[t] == Table(d, v / ENTRIES)
    requires Present(Pte(mem, d, v))
    ensures Frame(Pte(mem, d, v)) in owner && owner[Frame(Pte(mem, d, v))] == Data(d, v)
    ensures Tables(WithPte(mem, t, v % ENTRIES, 0), owner[Frame(Pte(mem, d, v)) := Held])
  {
    var f := Frame(Pte(mem, d, v));
    var mem', owner' := WithPte(mem, t, v % ENTRIES, 0), owner[f := Held];
    assert PageOk(mem, owner, d, v);
    WithPteMaps(mem, owner, d, v, t, 0);
    assert UseOk(mem, owner, t);
    hide Pte;
    forall x: nat, y: nat | IsDir(owner', x) && x < NFRAMES && y < VPAGES
      ensures PageOk(mem', owner', x, y)
    {
      assert PageOk(mem, owner, x, y);
    }
    forall x: nat, k: nat | IsDir(owner', x) && x < NFRAMES && k < ENTRIES
      ensures EntryOk(mem', owner', x, k)
    {
      assert EntryOk(mem, owner, x, k);
    }
    forall g | g in owner'
      ensures UseOk(mem', owner', g)
    {
      assert UseOk(mem, owner, g);
    }
  }
}
