/** umalloc.c: the address-ordered circular free list of Kernighan and Ritchie, "The C Programming Language",
    2nd edition, section 8.7. Addresses count Header units. */
module Malloc {
  import opened Basics

  const NULL: nat := 0
  const BASE: nat := 1 // &base, below every address sbrk returns
  const UNIT: nat := 8 // sizeof(Header)
  const UINT: nat := 0x1_0000_0000
  const MAXBYTES: nat := 0x7fff_fff0

  datatype Header = Header(ptr: nat, size: nat)
  datatype Option<T> = None | Some(value: T)

  /** A block of n units at address a. */
  datatype Blk = Blk(a: nat, n: nat)

  type Memory = map<nat, Header>

  // ---------------------------------------------------------------- free lists

  /** `base` first, then blocks in address order; no two blocks overlap or even touch. */
  ghost predicate Gapped(fl: seq<Blk>) {
    |fl| > 0 && fl[0] == Blk(BASE, 0) && (forall i :: 0 < i < |fl| ==> fl[i].n > 0) &&
    forall i, j :: 0 <= i < j < |fl| ==> fl[i].a + fl[i].n < fl[j].a
  }

  function Next(fl: seq<Blk>, i: nat): nat
    requires i < |fl|
  {
    if i + 1 < |fl| then fl[i + 1].a else fl[0].a
  }

  ghost predicate HeaderAt(mem: Memory, fl: seq<Blk>, i: nat)
    requires i < |fl|
  {
    fl[i].a in mem && mem[fl[i].a] == Header(Next(fl, i), fl[i].n)
  }

  /** The headers in memory form the ring `fl`. */
  ghost predicate Ring(mem: Memory, fl: seq<Blk>) {
    forall i: nat :: i < |fl| ==> HeaderAt(mem, fl, i)
  }

  predicate InBlk(b: Blk, u: nat) {
    b.a <= u < b.a + b.n
  }

  ghost predicate InFree(fl: seq<Blk>, u: nat) {
    exists i :: 0 <= i < |fl| && InBlk(fl[i], u)
  }

  ghost predicate InUse(alloc: map<nat, nat>, u: nat) {
    exists b :: b in alloc && InBlk(Blk(b, alloc[b]), u)
  }

  /** Every unit obtained from sbrk is in exactly one free block or exactly one allocated block. */
  ghost predicate Partition(fl: seq<Blk>, alloc: map<nat, nat>, owned: set<nat>) {
    (forall u :: u in owned <==> InFree(fl, u) || InUse(alloc, u)) &&
    (forall u :: !(InFree(fl, u) && InUse(alloc, u))) &&
    forall b, c, u :: b in alloc && c in alloc && b != c && InBlk(Blk(b, alloc[b]), u) ==> !InBlk(Blk(c, alloc[c]), u)
  }

  ghost predicate Inv(mem: Memory, fl: seq<Blk>, alloc: map<nat, nat>, owned: set<nat>) {
    Gapped(fl) && Ring(mem, fl) && Partition(fl, alloc, owned) && (forall u :: u in owned ==> u > BASE) &&
    forall b :: b in alloc ==> b in mem && mem[b].size == alloc[b] && alloc[b] > 0
  }

  // ---------------------------------------------------------------- inserting a block

  /** Block b lies between list elements k and k + 1. */
  ghost predicate Between(fl: seq<Blk>, k: nat, b: Blk) {
    k < |fl| && b.n > 0 && fl[k].a < b.a && fl[k].a + fl[k].n <= b.a && (k + 1 < |fl| ==> b.a + b.n <= fl[k + 1].a)
  }

  predicate JoinsUp(fl: seq<Blk>, k: nat, b: Blk)
    requires k < |fl|
  {
    k + 1 < |fl| && b.a + b.n == fl[k + 1].a
  }

  predicate JoinsDown(fl: seq<Blk>, k: nat, b: Blk)
    requires k < |fl|
  {
    fl[k].a + fl[k].n == b.a
  }

  /** What b becomes part of. */
  function Joined(fl: seq<Blk>, k: nat, b: Blk): Blk
    requires k < |fl|
  {
    Blk(if JoinsDown(fl, k, b) then fl[k].a else b.a,
        (if JoinsDown(fl, k, b) then fl[k].n else 0) + b.n + (if JoinsUp(fl, k, b) then fl[k + 1].n else 0))
  }

  /** Where it goes in the list, and which element follows it. */
  function Spot(fl: seq<Blk>, k: nat, b: Blk): nat
    requires k < |fl|
  {
    if JoinsDown(fl, k, b) then k else k + 1
  }

  function After(fl: seq<Blk>, k: nat, b: Blk): nat
    requires k < |fl|
  {
    if JoinsUp(fl, k, b) then k + 2 else k + 1
  }

  /** The list with b put after element k and merged with the neighbours it touches. */
  function Insert(fl: seq<Blk>, k: nat, b: Blk): (r: seq<Blk>)
    requires k < |fl|
  {
    fl[..Spot(fl, k, b)] + [Joined(fl, k, b)] + fl[After(fl, k, b)..]
  }

  function InsertedAt(fl: seq<Blk>, k: nat, b: Blk, i: nat): Blk
    requires k < |fl| && i < Spot(fl, k, b) + 1 + |fl| - After(fl, k, b)
  {
    var at, next := Spot(fl, k, b), After(fl, k, b);
    if i < at then fl[i] else if i == at then Joined(fl, k, b) else fl[i - at - 1 + next]
  }

  /** `r` is the inserted list, element by element. */
  ghost predicate Inserted(fl: seq<Blk>, k: nat, b: Blk, r: seq<Blk>)
    requires k < |fl|
  {
    |r| == Spot(fl, k, b) + 1 + |fl| - After(fl, k, b) && forall i: nat :: i < |r| ==> r[i] == InsertedAt(fl, k, b, i)
  }

  lemma InsertedGapped(fl: seq<Blk>, k: nat, b: Blk, r: seq<Blk>)
    requires Gapped(fl) && Between(fl, k, b) && Inserted(fl, k, b, r)
    ensures Gapped(r)
  {
    var at, next := Spot(fl, k, b), After(fl, k, b);
    assert at > 0;
    assert r[0] == fl[0];
    assert forall i :: 0 < i < |r| ==> r[i].n > 0;
    assert r[at] == Joined(fl, k, b);
    forall i, j | 0 <= i < j < |r|
      ensures r[i].a + r[i].n < r[j].a
    {
      var x := j - at - 1 + next; // where r[j] came from, if j > at
      if i == at {
        assert k + 1 == x || fl[k + 1].a + fl[k + 1].n < fl[x].a;
      } else if j == at {
        assert i == k || fl[i].a + fl[i].n < fl[k].a;
      } else if i > at {
        assert fl[i - at - 1 + next].a + fl[i - at - 1 + next].n < fl[x].a;
      } else if j > at {
        assert fl[i].a + fl[i].n < fl[x].a;
      } else {
        assert fl[i].a + fl[i].n < fl[j].a;
      }
    }
  }

  lemma InsertIsInserted(fl: seq<Blk>, k: nat, b: Blk)
    requires k < |fl|
    ensures Inserted(fl, k, b, Insert(fl, k, b))
  {
  }

  lemma InsertGapped(fl: seq<Blk>, k: nat, b: Blk)
    requires Gapped(fl) && Between(fl, k, b)
    ensures Gapped(Insert(fl, k, b))
  {
    hide Gapped;
    InsertIsInserted(fl, k, b);
    InsertedGapped(fl, k, b, Insert(fl, k, b));
  }

  lemma InsertUnits(fl: seq<Blk>, k: nat, b: Blk, u: nat)
    requires Gapped(fl) && Between(fl, k, b)
    ensures InFree(Insert(fl, k, b), u) <==> InFree(fl, u) || InBlk(b, u)
  {
    hide Gapped;
    InsertIsInserted(fl, k, b);
    var r, at, shift := Insert(fl, k, b), Spot(fl, k, b), After(fl, k, b) - Spot(fl, k, b) - 1;
    if i :| 0 <= i < |fl| && InBlk(fl[i], u) {
      assert InBlk(r[if i < at then i else if i < After(fl, k, b) then at else i - shift], u);
    }
    if InBlk(b, u) {
      assert InBlk(r[at], u);
    }
    if i :| 0 <= i < |r| && InBlk(r[i], u) && !InBlk(b, u) {
      assert InBlk(fl[if i < at then i else if i > at then i + shift else if u < b.a then k else k + 1], u);
    }
  }

  /** What free writes once it has found the element p before the block bp. */
  function Linked(mem: Memory, p: nat, bp: nat): (r: Memory)
    requires p in mem && bp in mem && mem[p].ptr in mem
  {
    var q := mem[p].ptr;
    var up := if bp + mem[bp].size == q then Header(mem[q].ptr, mem[bp].size + mem[q].size)
      else Header(q, mem[bp].size);
    var m := mem[bp := up];
    if p + m[p].size == bp then m[p := Header(m[bp].ptr, m[p].size + m[bp].size)] else m[p := Header(bp, m[p].size)]
  }

  /** Nothing but the headers of p and bp is written. */
  lemma LinkedFrame(mem: Memory, p: nat, bp: nat)
    requires p in mem && bp in mem && mem[p].ptr in mem
    ensures var m := Linked(mem, p, bp); m.Keys == mem.Keys && forall x :: x in mem && x != p && x != bp ==>
            m[x] == mem[x]
  {
  }

  ghost predicate FreeSpot(mem: Memory, fl: seq<Blk>, k: nat, bp: nat) {
    Gapped(fl) && Ring(mem, fl) && bp in mem && Between(fl, k, Blk(bp, mem[bp].size)) &&
    HeaderAt(mem, fl, k) && HeaderAt(mem, fl, 0) && (k + 1 < |fl| ==> HeaderAt(mem, fl, k + 1))
  }

  lemma SpotFacts(mem: Memory, fl: seq<Blk>, k: nat, bp: nat)
    requires Gapped(fl) && Ring(mem, fl) && bp in mem && Between(fl, k, Blk(bp, mem[bp].size))
    ensures FreeSpot(mem, fl, k, bp) && Next(fl, k) in mem
  {
  }

  /** The headers free writes are those of the joined block and of the element before it. */
  lemma LinkedHeaders(mem: Memory, fl: seq<Blk>, k: nat, bp: nat)
    requires FreeSpot(mem, fl, k, bp)
    ensures var b := Blk(bp, mem[bp].size); var m := Linked(mem, fl[k].a, bp);
            m[Joined(fl, k, b).a] == Header(if After(fl, k, b) < |fl| then fl[After(fl, k, b)].a
              else fl[0].a, Joined(fl, k, b).n) &&
            (!JoinsDown(fl, k, b) ==> m[fl[k].a] == Header(bp, fl[k].n))
  {
  }

  lemma Apart(fl: seq<Blk>, k: nat, b: Blk, x: nat)
    requires Gapped(fl) && Between(fl, k, b) && x < |fl| && x != k
    ensures fl[x].a != b.a && fl[x].a != fl[k].a
  {
  }

  /** Which element of the old list r[i] is, when it is not the joined block. */
  function Source(fl: seq<Blk>, k: nat, b: Blk, i: nat): int
    requires k < |fl|
  {
    if i < Spot(fl, k, b) then i else i - Spot(fl, k, b) - 1 + After(fl, k, b)
  }

  lemma RingAt(m: Memory, fl: seq<Blk>, k: nat, b: Blk, r: seq<Blk>, i: nat)
    requires k < |fl| && Inserted(fl, k, b, r) && i < |r| && r[0] == fl[0]
    requires var at, next, x := Spot(fl, k, b), After(fl, k, b), Source(fl, k, b, i);
             if i == at then r[i].a in m && m[r[i].a] == Header(if next < |fl| then fl[next].a
                 else fl[0].a, Joined(fl, k, b).n)
             else if i == k then r[i].a in m && m[r[i].a] == Header(b.a, fl[k].n)
             else 0 <= x < |fl| && HeaderAt(m, fl, x)
    ensures HeaderAt(m, r, i)
  {
  }

  lemma LinkedRingAt(mem: Memory, fl: seq<Blk>, k: nat, bp: nat, r: seq<Blk>, i: nat)
    requires FreeSpot(mem, fl, k, bp) && Inserted(fl, k, Blk(bp, mem[bp].size), r) && i < |r|
    ensures HeaderAt(Linked(mem, fl[k].a, bp), r, i)
  {
    var b := Blk(bp, mem[bp].size);
    var x := Source(fl, k, b, i);
    assert r[0] == InsertedAt(fl, k, b, 0);
    assert r[i] == InsertedAt(fl, k, b, i);
    LinkedFrame(mem, fl[k].a, bp);
    LinkedHeaders(mem, fl, k, bp);
    if i != Spot(fl, k, b) && i != k {
      assert HeaderAt(mem, fl, x);
      Apart(fl, k, b, x);
    }
    RingAt(Linked(mem, fl[k].a, bp), fl, k, b, r, i);
  }

  lemma LinkedRing(mem: Memory, fl: seq<Blk>, k: nat, bp: nat)
    requires Gapped(fl) && Ring(mem, fl) && bp in mem && Between(fl, k, Blk(bp, mem[bp].size))
    ensures HeaderAt(mem, fl, k) && Next(fl, k) in mem
    ensures Ring(Linked(mem, fl[k].a, bp), Insert(fl, k, Blk(bp, mem[bp].size)))
  {
    SpotFacts(mem, fl, k, bp);
    hide Linked, Insert, Inserted, Gapped, HeaderAt, Between;
    var b := Blk(bp, mem[bp].size);
    var r := Insert(fl, k, b);
    InsertIsInserted(fl, k, b);
    forall i: nat | i < |r|
      ensures HeaderAt(Linked(mem, fl[k].a, bp), r, i)
    {
      LinkedRingAt(mem, fl, k, bp, r, i);
    }
  }

  /** An allocated block overlaps no free block, so it fits between the neighbours its address picks. */
  lemma SpotBetween(mem: Memory, fl: seq<Blk>, alloc: map<nat, nat>, owned: set<nat>, k: nat, bp: nat)
    requires Inv(mem, fl, alloc, owned) && bp in alloc
    requires k < |fl| && fl[k].a < bp && (k + 1 < |fl| ==> bp < fl[k + 1].a)
    ensures Between(fl, k, Blk(bp, alloc[bp]))
  {
    var b := Blk(bp, alloc[bp]);
    assert InBlk(b, bp);
    assert InUse(alloc, bp);
    assert !InFree(fl, bp);
    assert !InBlk(fl[k], bp);
    if k + 1 < |fl| && fl[k + 1].a < bp + alloc[bp] {
      var u := fl[k + 1].a;
      assert InBlk(b, u) && InBlk(fl[k + 1], u);
      assert InUse(alloc, u) && InFree(fl, u);
      assert false;
    }
  }

  lemma InUseRemove(fl: seq<Blk>, alloc: map<nat, nat>, owned: set<nat>, bp: nat, u: nat)
    requires Partition(fl, alloc, owned) && bp in alloc
    ensures InUse(alloc - {bp}, u) <==> InUse(alloc, u) && !InBlk(Blk(bp, alloc[bp]), u)
  {
    if InUse(alloc, u) && !InBlk(Blk(bp, alloc[bp]), u) {
      var c :| c in alloc && InBlk(Blk(c, alloc[c]), u);
      assert c in alloc - {bp};
    }
  }

  /** Giving a block back: its units move from the allocated to the free side, and nothing else changes hands. */
  lemma FreeKeeps(mem: Memory, fl: seq<Blk>, alloc: map<nat, nat>, owned: set<nat>, k: nat, bp: nat)
    requires Inv(mem, fl, alloc, owned) && bp in alloc && Between(fl, k, Blk(bp, alloc[bp])) && HeaderAt(mem, fl, k) &&
             Next(fl, k) in mem
    ensures Inv(Linked(mem, fl[k].a, bp), Insert(fl, k, Blk(bp, alloc[bp])), alloc - {bp}, owned)
  {
    var b := Blk(bp, alloc[bp]);
    LinkedRing(mem, fl, k, bp);
    LinkedFrame(mem, fl[k].a, bp);
    InsertGapped(fl, k, b);
    assert Partition(Insert(fl, k, b), alloc - {bp}, owned) by {
      hide Linked, Insert, Gapped, Ring, Between, InFree;
      forall u
        ensures (InFree(Insert(fl, k, b), u) <==> InFree(fl, u) || InBlk(b, u)) &&
                (InUse(alloc - {bp}, u) <==> InUse(alloc, u) && !InBlk(b, u)) && (InBlk(b, u) ==> InUse(alloc, u))
      {
        InsertUnits(fl, k, b, u);
        InUseRemove(fl, alloc, owned, bp, u);
      }
    }
    hide Linked, Insert, Gapped, Ring, Partition;
    forall c | c in alloc - {bp}
      ensures c != fl[k].a
    {
      NotANode(mem, fl, alloc, owned, k, c);
    }
  }

  lemma NotANode(mem: Memory, fl: seq<Blk>, alloc: map<nat, nat>, owned: set<nat>, k: nat, c: nat)
    requires Inv(mem, fl, alloc, owned) && c in alloc && k < |fl|
    ensures c != fl[k].a
  {
    assert InBlk(Blk(c, alloc[c]), c);
    assert InUse(alloc, c);
    assert !InFree(fl, c);
    assert c > BASE;
    assert !InBlk(fl[k], c);
  }

  // ---------------------------------------------------------------- taking a block

  /** The free list after n units are taken from the end of element j. */
  function Take(fl: seq<Blk>, j: nat, n: nat): seq<Blk>
    requires 0 < j < |fl| && n <= fl[j].n
  {
    if fl[j].n == n then RemoveAt(fl, j) else fl[j := Blk(fl[j].a, fl[j].n - n)]
  }

  function SetSize(mem: Memory, a: nat, n: nat): Memory {
    mem[a := Header(if a in mem then mem[a].ptr else NULL, n)]
  }

  /** What malloc writes when it takes n units from the block at p, prevp being the element before it. */
  function Taken(mem: Memory, prevp: nat, p: nat, n: nat): Memory
    requires p in mem && prevp in mem && n <= mem[p].size
  {
    if mem[p].size == n then mem[prevp := mem[prevp].(ptr := mem[p].ptr)]
    else
      var m := mem[p := mem[p].(size := mem[p].size - n)];
      SetSize(m, p + m[p].size, n)
  }

  lemma TakeExactKeeps(mem: Memory, fl: seq<Blk>, j: nat)
    requires Gapped(fl) && Ring(mem, fl) && 0 < j < |fl| && HeaderAt(mem, fl, j) && HeaderAt(mem, fl, j - 1)
    ensures var r := Take(fl, j, fl[j].n); Gapped(r) && Ring(Taken(mem, fl[j - 1].a, fl[j].a, fl[j].n), r)
  {
    var r, m := RemoveAt(fl, j), Taken(mem, fl[j - 1].a, fl[j].a, fl[j].n);
    forall i: nat | i < |r|
      ensures HeaderAt(m, r, i)
    {
      TakeExactHeader(mem, fl, j, i);
    }
  }

  lemma TakeExactHeader(mem: Memory, fl: seq<Blk>, j: nat, i: nat)
    requires Gapped(fl) && Ring(mem, fl) && 0 < j < |fl| && HeaderAt(mem, fl, j) && HeaderAt(mem, fl, j - 1) &&
             i < |fl| - 1
    ensures HeaderAt(Taken(mem, fl[j - 1].a, fl[j].a, fl[j].n), RemoveAt(fl, j), i)
  {
    hide Ring, Gapped;
    var o := if i < j then i else i + 1;
    InRing(mem, fl, o);
    OneAddress(fl, o, j - 1);
    assert RemoveAt(fl, j)[i] == fl[o];
  }

  lemma InRing(mem: Memory, fl: seq<Blk>, i: nat)
    requires Ring(mem, fl) && i < |fl|
    ensures HeaderAt(mem, fl, i)
  {
  }

  lemma OneAddress(fl: seq<Blk>, i: nat, j: nat)
    requires Gapped(fl) && i < |fl| && j < |fl|
    ensures fl[i].a == fl[j].a ==> i == j
  {
  }

  lemma TakePartKeeps(mem: Memory, fl: seq<Blk>, j: nat, n: nat)
    requires Gapped(fl) && Ring(mem, fl) && 0 < j < |fl| && 0 < n < fl[j].n && HeaderAt(mem, fl, j) &&
             fl[j - 1].a in mem
    ensures var r := Take(fl, j, n); Gapped(r) && Ring(Taken(mem, fl[j - 1].a, fl[j].a, n), r)
  {
    var r, m := Take(fl, j, n), Taken(mem, fl[j - 1].a, fl[j].a, n);
    forall i: nat | i < |r|
      ensures HeaderAt(m, r, i)
    {
      assert HeaderAt(mem, fl, i);
    }
  }

  lemma TakeUnits(fl: seq<Blk>, j: nat, n: nat, u: nat)
    requires Gapped(fl) && 0 < j < |fl| && 0 < n <= fl[j].n
    ensures var b := Blk(fl[j].a + fl[j].n - n, n);
            (InFree(Take(fl, j, n), u) <==> InFree(fl, u) && !InBlk(b, u)) && (InBlk(b, u) ==> InFree(fl, u))
  {
    var r, b := Take(fl, j, n), Blk(fl[j].a + fl[j].n - n, n);
    if i :| 0 <= i < |fl| && InBlk(fl[i], u) {
      if !InBlk(b, u) {
        assert InBlk(r[if fl[j].n > n || i < j then i else i - 1], u);
      }
    }
    if InBlk(b, u) {
      assert InBlk(fl[j], u);
    }
    if i :| 0 <= i < |r| && InBlk(r[i], u) {
      assert InBlk(fl[if fl[j].n > n || i < j then i else i + 1], u);
    }
  }

  /** Taking units: they move from the free to the allocated side, and nothing else changes hands. */
  lemma TakeKeeps(mem: Memory, fl: seq<Blk>, alloc: map<nat, nat>, owned: set<nat>, j: nat, n: nat)
    requires Inv(mem, fl, alloc, owned) && 0 < j < |fl| && 0 < n <= fl[j].n
    requires HeaderAt(mem, fl, j) && HeaderAt(mem, fl, j - 1)
    ensures var b := fl[j].a + fl[j].n - n;
            b !in alloc && Inv(Taken(mem, fl[j - 1].a, fl[j].a, n), Take(fl, j, n), alloc[b := n], owned)
  {
    hide Gapped, Ring, Partition, Take;
    if fl[j].n == n {
      TakeExactKeeps(mem, fl, j);
    } else {
      TakePartKeeps(mem, fl, j, n);
    }
    TakePartition(mem, fl, alloc, owned, j, n);
    forall c | c in alloc
      ensures c != fl[j - 1].a && c != fl[j].a
    {
      NotANode(mem, fl, alloc, owned, j, c);
      NotANode(mem, fl, alloc, owned, j - 1, c);
    }
  }

  lemma TakePartition(mem: Memory, fl: seq<Blk>, alloc: map<nat, nat>, owned: set<nat>, j: nat, n: nat)
    requires Inv(mem, fl, alloc, owned) && 0 < j < |fl| && 0 < n <= fl[j].n
    ensures var b := fl[j].a + fl[j].n - n; b !in alloc && Partition(Take(fl, j, n), alloc[b := n], owned)
  {
    hide Ring, Take, InFree;
    var b := Blk(fl[j].a + fl[j].n - n, n);
    TakeUnits(fl, j, n, b.a);
    assert !InUse(alloc, b.a);
    assert b.a in alloc ==> InBlk(Blk(b.a, alloc[b.a]), b.a);
    forall u
      ensures (InFree(Take(fl, j, n), u) <==> InFree(fl, u) && !InBlk(b, u)) && (InBlk(b, u) ==> InFree(fl, u))
    {
      TakeUnits(fl, j, n, u);
    }
    MovePartition(fl, Take(fl, j, n), alloc, owned, b);
  }

  /** A free block becomes an allocated one. */
  lemma MovePartition(fl: seq<Blk>, fl': seq<Blk>, alloc: map<nat, nat>, owned: set<nat>, b: Blk)
    requires Partition(fl, alloc, owned) && b.a !in alloc
    requires forall u :: InFree(fl', u) <==> InFree(fl, u) && !InBlk(b, u)
    requires forall u :: InBlk(b, u) ==> InFree(fl, u)
    ensures Partition(fl', alloc[b.a := b.n], owned)
  {
    hide InFree, InUse, InBlk;
    var alloc' := alloc[b.a := b.n];
    forall u
      ensures InUse(alloc', u) <==> InUse(alloc, u) || InBlk(b, u)
    {
      UseMore(alloc, b, u);
    }
    forall c, d, u | c in alloc' && d in alloc' && c != d && InBlk(Blk(c, alloc'[c]), u)
      ensures !InBlk(Blk(d, alloc'[d]), u)
    {
      assert b == Blk(b.a, alloc'[b.a]);
      InUseOf(alloc, c, u);
      InUseOf(alloc, d, u);
    }
  }

  lemma InUseOf(alloc: map<nat, nat>, c: nat, u: nat)
    ensures c in alloc && InBlk(Blk(c, alloc[c]), u) ==> InUse(alloc, u)
  {
  }

  lemma UseMore(alloc: map<nat, nat>, b: Blk, u: nat)
    requires b.a !in alloc
    ensures InUse(alloc[b.a := b.n], u) <==> InUse(alloc, u) || InBlk(b, u)
  {
    var alloc' := alloc[b.a := b.n];
    if InUse(alloc, u) {
      var c :| c in alloc && InBlk(Blk(c, alloc[c]), u);
      assert c in alloc' && InBlk(Blk(c, alloc'[c]), u);
    }
    if InBlk(b, u) {
      assert b.a in alloc' && InBlk(Blk(b.a, alloc'[b.a]), u);
    }
  }

  ghost predicate IsSpot(fl: seq<Blk>, bp: nat, k: nat) {
    k < |fl| && fl[k].a < bp && (k + 1 < |fl| ==> bp < fl[k + 1].a)
  }

  lemma {:induction false} SpotExists(fl: seq<Blk>, bp: nat, i: nat) returns (k: nat)
    requires Gapped(fl) && i < |fl| && fl[i].a < bp && forall j :: 0 <= j < |fl| ==> fl[j].a != bp
    ensures IsSpot(fl, bp, k)
    decreases |fl| - i
  {
    if i + 1 == |fl| || bp < fl[i + 1].a {
      k := i;
    } else {
      k := SpotExists(fl, bp, i + 1);
    }
  }

  /** How many links lead from element i to element k. */
  function Distance(fl: seq<Blk>, i: nat, k: nat): nat
    requires i < |fl| && k < |fl|
  {
    if i <= k then k - i else k - i + |fl|
  }

  /** Units for nbytes, rounded up, and one for the header, in 32-bit arithmetic. */
  function NUnits(nbytes: nat): nat
    requires nbytes < UINT
  {
    (nbytes + UNIT - 1) % UINT / UNIT + 1
  }

  lemma NUnitsPositive(nbytes: nat)
    requires nbytes < UINT
    ensures NUnits(nbytes) > 0
  {
  }

  /** Units of n consecutive addresses from a. */
  function Units(a: nat, n: nat): (r: set<nat>)
    ensures forall u :: u in r <==> InBlk(Blk(a, n), u)
  {
    set u: nat | u < a + n && InBlk(Blk(a, n), u)
  }

  /** sbrk's answer when asked for so many bytes is, if not an error, that much memory that nobody has had from it
      before. */
  ghost predicate Fresh(brk: Option<nat>, bytes: int, owned: set<nat>) {
    brk.Some? && bytes >= 0 ==> brk.value > BASE && forall u :: InBlk(Blk(brk.value, bytes / UNIT), u) ==> u !in owned
  }

  lemma NotAhead(fl: seq<Blk>, j: nat, n: nat)
    requires j < |fl| && fl[j].n < n
    ensures !Ahead(fl, j, j, n)
  {
  }

  /** What morecore asks of sbrk, in units. */
  function Request(nunits: nat): nat {
    if nunits < 4096 then 4096 else nunits
  }

  function After1(fl: seq<Blk>, i: nat): nat
    requires i < |fl|
  {
    if i + 1 < |fl| then i + 1 else 0
  }

  function Before1(fl: seq<Blk>, i: nat): nat
    requires i < |fl|
  {
    if i == 0 then |fl| - 1 else i - 1
  }

  lemma EmptyInv(mem: Memory)
    requires BASE in mem && mem[BASE] == Header(BASE, 0)
    ensures Inv(mem, [Blk(BASE, 0)], map[], {})
  {
  }

  /** The list an inserted block went into has an element at least as large. */
  lemma InsertHolds(fl: seq<Blk>, r: seq<Blk>, b: Blk)
    requires Gapped(fl) && exists k: nat :: Between(fl, k, b) && r == Insert(fl, k, b)
    ensures exists j :: 0 < j < |r| && r[j].n >= b.n
  {
    var k: nat :| Between(fl, k, b) && r == Insert(fl, k, b);
    InsertIsInserted(fl, k, b);
    var at := Spot(fl, k, b);
    assert r[at] == InsertedAt(fl, k, b, at);
  }

  /** A block of n units lies on the way from element j to element f. */
  ghost predicate Ahead(fl: seq<Blk>, j: nat, f: nat, n: nat)
    requires j < |fl| && f < |fl|
  {
    exists m: nat :: m < |fl| && fl[m].n >= n && Distance(fl, j, m) <= Distance(fl, j, f)
  }

  lemma AheadStep(fl: seq<Blk>, j: nat, f: nat, n: nat)
    requires j < |fl| && f < |fl| && j != f
    ensures Distance(fl, After1(fl, j), f) < Distance(fl, j, f)
    ensures fl[j].n < n ==> (Ahead(fl, j, f, n) <==> Ahead(fl, After1(fl, j), f, n))
  {
  }

  lemma HereAhead(fl: seq<Blk>, j: nat, f: nat, n: nat)
    requires j < |fl| && f < |fl| && fl[j].n >= n
    ensures Ahead(fl, j, f, n)
  {
    assert Distance(fl, j, j) == 0;
  }

  /** Some free block is large enough. */
  ghost predicate HasRoom(fl: seq<Blk>, n: nat) {
    exists m: nat :: m < |fl| && fl[m].n >= n
  }

  lemma NoRoom(n: nat)
    requires n > 0
    ensures !HasRoom([Blk(BASE, 0)], n)
  {
  }

  lemma GrownRoom(fl: seq<Blk>, n: nat)
    requires exists j :: 0 < j < |fl| && fl[j].n >= n
    ensures HasRoom(fl, n)
  {
  }

  /** From the element after f back to f the search passes every block. */
  lemma AheadIff(fl: seq<Blk>, f: nat, n: nat)
    requires f < |fl|
    ensures Ahead(fl, After1(fl, f), f, n) <==> HasRoom(fl, n)
  {
  }

  /** What a visit to element j of a valid list finds. */
  lemma Visit(mem: Memory, fl: seq<Blk>, alloc: map<nat, nat>, owned: set<nat>, j: nat)
    requires Inv(mem, fl, alloc, owned) && j < |fl|
    ensures fl[j].a in mem && mem[fl[j].a] == Header(fl[After1(fl, j)].a, fl[j].n) && (fl[j].n > 0 ==> j > 0) &&
            fl[j].a != NULL
  {
    assert HeaderAt(mem, fl, j);
  }

  lemma SameElement(mem: Memory, fl: seq<Blk>, alloc: map<nat, nat>, owned: set<nat>, i: nat, j: nat)
    requires Inv(mem, fl, alloc, owned) && i < |fl| && j < |fl|
    ensures fl[i].a == fl[j].a ==> i == j
  {
    OneAddress(fl, i, j);
  }

  lemma TakeKeepsAddress(fl: seq<Blk>, j: nat, n: nat)
    requires 0 < j < |fl| && n <= fl[j].n
    ensures j - 1 < |Take(fl, j, n)| && Take(fl, j, n)[j - 1] == fl[j - 1]
  {
  }

  /** Memory fresh from sbrk is one more allocated block until free puts it on the list. */
  lemma GrowKeeps(mem: Memory, fl: seq<Blk>, alloc: map<nat, nat>, owned: set<nat>, hp: nat, n: nat)
    requires Inv(mem, fl, alloc, owned) && hp > BASE && n > 0 && forall u :: InBlk(Blk(hp, n), u) ==> u !in owned
    ensures hp !in alloc && Inv(SetSize(mem, hp, n), fl, alloc[hp := n], owned + Units(hp, n))
  {
    var alloc' := alloc[hp := n];
    assert InBlk(Blk(hp, n), hp);
    assert forall c :: c in alloc ==> InBlk(Blk(c, alloc[c]), c);
    assert !InUse(alloc, hp) && !InFree(fl, hp);
    forall u
      ensures InUse(alloc', u) <==> InUse(alloc, u) || InBlk(Blk(hp, n), u)
    {
      if InUse(alloc, u) {
        var c :| c in alloc && InBlk(Blk(c, alloc[c]), u);
        assert InBlk(Blk(c, alloc'[c]), u);
      }
      if InBlk(Blk(hp, n), u) {
        assert InBlk(Blk(hp, alloc'[hp]), u);
      }
    }
    forall c, d, u | c in alloc' && d in alloc' && c != d && InBlk(Blk(c, alloc'[c]), u)
      ensures !InBlk(Blk(d, alloc'[d]), u)
    {
      assert c in alloc ==> InUse(alloc, u);
      assert InBlk(Blk(d, alloc'[d]), u) && d in alloc ==> InUse(alloc, u);
    }
    forall i: nat | i < |fl|
      ensures HeaderAt(SetSize(mem, hp, n), fl, i)
    {
      assert HeaderAt(mem, fl, i);
      assert i > 0 ==> InBlk(fl[i], fl[i].a);
    }
  }

  lemma LiveAboveBase(mem: Memory, fl: seq<Blk>, alloc: map<nat, nat>, owned: set<nat>, bp: nat)
    requires Inv(mem, fl, alloc, owned) && bp in alloc
    ensures bp > BASE
  {
    assert InBlk(Blk(bp, alloc[bp]), bp);
    assert InUse(alloc, bp);
  }

  /** The element before an inserted block keeps its address, so freep stays on the list. */
  lemma InsertKeepsAddress(fl: seq<Blk>, k: nat, b: Blk)
    requires k < |fl|
    ensures k < |Insert(fl, k, b)| && Insert(fl, k, b)[k].a == fl[k].a
  {
  }

  /** morecore's argument to sbrk, as the int it arrives as. */
  function SbrkBytes(nunits: nat): int {
    var bytes := Request(nunits) * UNIT % UINT;
    if bytes < UINT / 2 then bytes else bytes - UINT
  }

  /** The block malloc carves out has room for nbytes, and sbrk is asked for the bytes it takes, exactly up to
      0x7ffffff0; above that the sum wraps or the request turns negative or zero. */
  lemma SizeArithmetic(nbytes: nat)
    requires nbytes < UINT
    ensures (NUnits(nbytes) - 1) * UNIT >= nbytes && SbrkBytes(NUnits(nbytes)) == Request(NUnits(nbytes)) * UNIT <==>
            nbytes <= MAXBYTES
    ensures nbytes <= MAXBYTES ==>
              (NUnits(nbytes) - 2) * UNIT < nbytes &&
              SbrkBytes(NUnits(nbytes)) == if nbytes <= 32760 then 32768 else NUnits(nbytes) * UNIT
  {
  }

  // ---------------------------------------------------------------- the code

  class Heap {
    var mem: Memory
    var freep: nat
    ghost var fl: seq<Blk>
    ghost var alloc: map<nat, nat> // live blocks, header included
    ghost var owned: set<nat>      // every unit sbrk has given

    ghost predicate Valid()
      reads this
    {
      if freep == NULL then alloc == map[] && owned == {}
      else Inv(mem, fl, alloc, owned) && exists i :: 0 <= i < |fl| && fl[i].a == freep
    }

    constructor ()
      ensures Valid() && alloc == map[] && owned == {}
    {
      mem, freep := map[], NULL;
      fl, alloc, owned := [], map[], {};
    }

    /** The search loop of free: around the ring from freep to the element the block belongs after. */
    method FindSpot(bp: nat) returns (p: nat, ghost i: nat)
      requires Valid() && bp in alloc
      ensures Between(fl, i, Blk(bp, alloc[bp])) && p == fl[i].a
    {
      hide Partition;
      p := freep;
      i :| i < |fl| && fl[i].a == freep;
      forall j: nat | j < |fl|
        ensures fl[j].a != bp
      {
        NotANode(mem, fl, alloc, owned, j, bp);
      }
      LiveAboveBase(mem, fl, alloc, owned, bp);
      ghost var k := SpotExists(fl, bp, 0);
      assert HeaderAt(mem, fl, i);
      while !(bp > p && bp < mem[p].ptr)
        invariant i < |fl| && p == fl[i].a && HeaderAt(mem, fl, i)
        decreases Distance(fl, i, k)
      {
        if p >= mem[p].ptr && (bp > p || bp < mem[p].ptr) {
          break;
        }
        assert i != k;
        p := mem[p].ptr;
        i := if i + 1 < |fl| then i + 1 else 0;
        assert HeaderAt(mem, fl, i);
      }
      assert IsSpot(fl, bp, i);
      SpotBetween(mem, fl, alloc, owned, i, bp);
    }

    /** free(ap), for a live block. */
    method Free(ap: nat)
      requires Valid() && ap > 0 && ap - 1 in alloc
      modifies this
      ensures Valid() && freep != NULL && owned == old(owned) && alloc == old(alloc) - {ap - 1}
      ensures exists k: nat :: Between(old(fl), k, Blk(ap - 1, old(alloc)[ap - 1])) &&
                fl == Insert(old(fl), k, Blk(ap - 1, old(alloc)[ap - 1])) && freep == old(fl)[k].a
    {
      var bp := ap - 1;
      ghost var i;
      var p;
      p, i := FindSpot(bp);
      hide Partition, Insert, Gapped;
      LinkedRing(mem, fl, i, bp);
      FreeKeeps(mem, fl, alloc, owned, i, bp);
      ghost var m := Linked(mem, p, bp);
      var q := mem[p].ptr;
      if bp + mem[bp].size == q {
        mem := mem[bp := Header(mem[q].ptr, mem[bp].size + mem[q].size)];
      } else {
        mem := mem[bp := Header(q, mem[bp].size)];
      }
      if p + mem[p].size == bp {
        mem := mem[p := Header(mem[bp].ptr, mem[p].size + mem[bp].size)];
      } else {
        mem := mem[p := Header(bp, mem[p].size)];
      }
      assert mem == m;
      ghost var b := Blk(bp, alloc[bp]);
      freep := p;
      InsertKeepsAddress(fl, i, b);
      fl, alloc := Insert(fl, i, b), alloc - {bp};
    }

    /** morecore; `brk` is what sbrk would answer. Returns NULL where sbrk fails. */
    method Morecore(nunits: nat, brk: Option<nat>) returns (r: nat)
      requires Valid() && freep != NULL && nunits > 0 && SbrkBytes(nunits) == Request(nunits) * UNIT
      requires Fresh(brk, SbrkBytes(nunits), owned)
      modifies this
      ensures Valid() && freep != NULL && alloc == old(alloc) && (r == NULL <==> brk.None?)
      ensures brk.None? ==> mem == old(mem) && fl == old(fl) && freep == old(freep) && owned == old(owned)
      ensures brk.Some? ==> r == freep && owned == old(owned) + Units(brk.value, Request(nunits))
      ensures brk.Some? ==> exists j :: 0 < j < |fl| && fl[j].n >= nunits
    {
      hide Partition, Ring, Insert, HeaderAt, Gapped, InBlk;
      var nu := if nunits < 4096 then 4096 else nunits;
      if brk.None? {
        return NULL;
      }
      var hp := brk.value;
      GrowKeeps(mem, fl, alloc, owned, hp, nu);
      mem := SetSize(mem, hp, nu);
      alloc, owned := alloc[hp := nu], owned + Units(hp, nu);
      ghost var fl0 := fl;
      Free(hp + 1);
      InsertHolds(fl0, fl, Blk(hp, nu));
      r := freep;
      assert alloc == old(alloc);
    }

    /** malloc's body for a block p that is large enough, prevp being the element before it. */
    method Cut(prevp: nat, block: nat, nunits: nat, ghost j: nat) returns (r: nat)
      requires Valid() && freep != NULL && 0 < j < |fl| && block == fl[j].a && prevp == fl[j - 1].a &&
               0 < nunits <= fl[j].n
      modifies this
      ensures Valid() && freep == prevp != NULL && r != NULL && owned == old(owned) && fl == Take(old(fl), j, nunits)
      ensures r - 1 == old(fl)[j].a + old(fl)[j].n - nunits && r - 1 !in old(alloc) &&
              alloc == old(alloc)[r - 1 := nunits]
    {
      hide Partition, Gapped, Take;
      Visit(mem, fl, alloc, owned, j - 1);
      assert HeaderAt(mem, fl, j) && HeaderAt(mem, fl, j - 1);
      TakeKeeps(mem, fl, alloc, owned, j, nunits);
      TakeKeepsAddress(fl, j, nunits);
      var p := block;
      ghost var m := Taken(mem, prevp, p, nunits);
      ghost var b := fl[j].a + fl[j].n - nunits;
      if mem[p].size == nunits {
        mem := mem[prevp := mem[prevp].(ptr := mem[p].ptr)];
      } else {
        mem := mem[p := mem[p].(size := mem[p].size - nunits)];
        p := p + mem[p].size;
        mem := SetSize(mem, p, nunits);
      }
      assert mem == m && p == b;
      freep := prevp;
      fl, alloc := Take(fl, j, nunits), alloc[b := nunits];
      assert fl[j - 1].a == freep;
      return p + 1;
    }

    /** malloc's first lines: the list of nothing but `base`, the first time. */
    method Start(ghost nunits: nat)
      requires Valid() && nunits > 0
      modifies this`mem, this`freep, this`fl
      ensures Valid() && freep != NULL && (old(freep) != NULL ==> fl == old(fl))
      ensures HasRoom(fl, nunits) <==> old(freep) != NULL && HasRoom(old(fl), nunits)
    {
      hide Inv, HasRoom;
      if freep == NULL {
        mem, freep := mem[BASE := Header(BASE, 0)], BASE;
        fl := [Blk(BASE, 0)];
        EmptyInv(mem);
        NoRoom(nunits);
        assert fl[0].a == freep;
      }
    }

    /** malloc(nbytes), of as much as its 32-bit arithmetic is right for; `brk` is what sbrk would answer to the
        request malloc makes of it, which it makes exactly when no free block is large enough. Returns NULL where sbrk
        fails, and otherwise the address after the header of a block of NUnits(nbytes) units that was not live
        before. */
    method Malloc(nbytes: nat, brk: Option<nat>) returns (r: nat)
      requires Valid() && nbytes <= MAXBYTES && Fresh(brk, SbrkBytes(NUnits(nbytes)), owned)
      modifies this
      ensures Valid() && freep != NULL
      ensures r == NULL ==> alloc == old(alloc) && owned == old(owned)
      ensures r != NULL ==> r - 1 !in old(alloc) && alloc == old(alloc)[r - 1 := NUnits(nbytes)]
      ensures if old(freep) != NULL && HasRoom(old(fl), NUnits(nbytes)) then r != NULL && owned == old(owned)
              else if brk.None? then r == NULL
              else r != NULL && owned == old(owned) + Units(brk.value, Request(NUnits(nbytes)))
    {
      hide Inv, Distance, Ahead, HasRoom, Units, Take, NUnits, Fresh, SbrkBytes, Request;
      var nunits := NUnits(nbytes);
      SizeArithmetic(nbytes);
      NUnitsPositive(nbytes);
      Start(nunits);
      ghost var f: nat :| f < |fl| && fl[f].a == freep;
      Visit(mem, fl, alloc, owned, f);
      var prevp := freep;
      var p := mem[prevp].ptr;
      ghost var j: nat := After1(fl, f);
      ghost var grown, room := false, HasRoom(fl, nunits);
      AheadIff(fl, f, nunits);
      while true
        invariant Valid() && freep != NULL && f < |fl| && j < |fl| && fl[f].a == freep && p == fl[j].a
        invariant prevp == fl[Before1(fl, j)].a && alloc == old(alloc)
        invariant !grown ==> owned == old(owned) && (room <==> Ahead(fl, j, f, nunits))
        invariant grown ==> !room
        invariant grown ==>
                    brk.Some? && owned == old(owned) + Units(brk.value, Request(nunits)) && Ahead(fl, j, f, nunits)
        decreases if grown then 0 else 1, Distance(fl, j, f)
      {
        Visit(mem, fl, alloc, owned, j);
        if mem[p].size >= nunits {
          HereAhead(fl, j, f, nunits);
          r := Cut(prevp, p, nunits, j);
          return;
        }
        if p == freep {
          SameElement(mem, fl, alloc, owned, j, f);
          NotAhead(fl, j, nunits);
          assert !grown && !room;
          p := Morecore(nunits, brk);
          if p == NULL {
            return NULL;
          }
          grown := true;
          f :| f < |fl| && fl[f].a == freep;
          j := f;
          GrownRoom(fl, nunits);
          AheadIff(fl, f, nunits);
          Visit(mem, fl, alloc, owned, f);
        } else {
          assert j != f;
          AheadStep(fl, j, f, nunits);
        }
        prevp := p;
        p := mem[p].ptr;
        j := After1(fl, j);
      }
    }
  }
}
