/** What fs.c keeps on disk: bitmap, inodes, data and indirect blocks; who owns each block, and how much of a file
    is allocated. */
module FsModel {
  import opened Basics
  import opened Blocks
  import opened Bitmap

  const NDIRECT: nat := 12
  const NINDIRECT: nat := WORDS
  const MAXFILE: nat := NDIRECT + NINDIRECT
  const SLOTS: nat := MAXFILE + 1 // every place in an inode that can name a block
  const IPB: nat := 8             // BSIZE / sizeof(struct dinode)

  /** The superblock: file system size, first block that is not metadata, first bitmap and inode block. */
  datatype Super = Super(size: nat, nmeta: nat, bmapstart: nat, inodestart: nat)

  datatype Inode = Inode(size: nat, addrs: seq<nat>)

  /** Bitmap blocks, all blocks by number, and the inodes as cached in memory and as on disk. */
  datatype Fs = Fs(bmap: seq<Block>, data: seq<Block>, inode: seq<Inode>, dinode: seq<Inode>)

  type Owner = map<nat, (nat, nat)> // block number to inode and slot

  /** Blocks needed for a file of n bytes. */
  function BlocksFor(n: nat): nat {
    (n + BSIZE - 1) / BSIZE
  }

  ghost predicate WellSized(sb: Super, s: Fs) {
    0 < sb.nmeta <= sb.size <= |s.bmap| * BPB && sb.size < 0x1_0000_0000 && |s.data| == sb.size &&
    |s.dinode| == |s.inode| &&
    forall i :: 0 <= i < |s.inode| ==> |s.inode[i].addrs| == NDIRECT + 1
  }

  /** The block slot a of inode i names, or 0: direct entries, the indirect block, then its entries. */
  function Ref(s: Fs, i: nat, a: nat): nat
    requires i < |s.inode| && a < SLOTS
  {
    var addrs := s.inode[i].addrs;
    if |addrs| != NDIRECT + 1 then 0
    else if a <= NDIRECT then addrs[a]
    else if addrs[NDIRECT] == 0 || addrs[NDIRECT] >= |s.data| then 0
    else GetWord(s.data[addrs[NDIRECT]], a - NDIRECT - 1)
  }

  /** Slot of the k-th block of a file. */
  function SlotOf(k: nat): nat {
    if k < NDIRECT then k else k + 1
  }

  ghost predicate SlotOwned(s: Fs, owner: Owner, i: nat, a: nat)
    requires i < |s.inode| && a < SLOTS
  {
    Ref(s, i, a) != 0 ==> Ref(s, i, a) in owner && owner[Ref(s, i, a)] == (i, a)
  }

  ghost predicate BlockOwned(sb: Super, s: Fs, owner: Owner, b: nat)
    requires b in owner
  {
    sb.nmeta <= b < sb.size && owner[b].0 < |s.inode| && owner[b].1 < SLOTS && Ref(s, owner[b].0, owner[b].1) == b
  }

  /** A block is marked in use exactly when it is metadata or named by exactly one slot of one inode. */
  ghost predicate Owned(sb: Super, s: Fs, owner: Owner) {
    WellSized(sb, s) &&
    (forall i: nat, a: nat :: i < |s.inode| && a < SLOTS ==> SlotOwned(s, owner, i, a)) &&
    (forall b :: b in owner ==> BlockOwned(sb, s, owner, b)) &&
    forall b: nat :: b < sb.size ==> (Bit(s.bmap, b) <==> b < sb.nmeta || b in owner)
  }

  /** Block k of file i is allocated exactly when k < nb[i], and the indirect block exactly when it is needed. */
  ghost predicate ExactFor(s: Fs, i: nat, n: nat)
    requires i < |s.inode|
  {
    n <= MAXFILE && (Ref(s, i, NDIRECT) != 0 <==> n > NDIRECT) &&
    forall k: nat :: k < MAXFILE ==> (Ref(s, i, SlotOf(k)) != 0 <==> k < n)
  }

  ghost predicate Exact(s: Fs, nb: seq<nat>) {
    |nb| == |s.inode| && forall i: nat :: i < |nb| ==> ExactFor(s, i, nb[i])
  }

  /** The invariant between operations: ownership, allocation exactly to the file size, inodes written through. */
  ghost predicate Consistent(sb: Super, s: Fs, owner: Owner) {
    Owned(sb, s, owner) && s.inode == s.dinode &&
    forall i: nat :: i < |s.inode| ==> ExactFor(s, i, BlocksFor(s.inode[i].size))
  }

  /** The contents of the k-th block of file i. */
  function FileBlock(s: Fs, i: nat, k: nat): Block
    requires i < |s.inode| && k < MAXFILE && Ref(s, i, SlotOf(k)) < |s.data|
  {
    s.data[Ref(s, i, SlotOf(k))]
  }

  // ---------------------------------------------------------------- single changes

  function Zero(): Block {
    seq(BSIZE, i => 0)
  }

  function WithAddr(s: Fs, i: nat, a: nat, b: nat): Fs
    requires i < |s.inode| && a < |s.inode[i].addrs|
  {
    s.(inode := s.inode[i := s.inode[i].(addrs := s.inode[i].addrs[a := b])])
  }

  /** balloc of block b: mark it in use and zero it. */
  function Allocated(s: Fs, b: nat): Fs
    requires b / BPB < |s.bmap| && b < |s.data|
  {
    s.(bmap := WithBit(s.bmap, b, true), data := s.data[b := Zero()])
  }

  lemma ZeroWord(j: nat)
    requires j < WORDS
    ensures GetWord(Zero(), j) == 0
  {
  }

  ghost predicate IsFree(sb: Super, s: Fs, b: nat) {
    WellSized(sb, s) && sb.nmeta <= b < sb.size && !Bit(s.bmap, b)
  }

  /** A free block is named nowhere. */
  lemma FreeUnnamed(sb: Super, s: Fs, owner: Owner, b: nat, i: nat, a: nat)
    requires Owned(sb, s, owner) && IsFree(sb, s, b) && i < |s.inode| && a < SLOTS
    ensures Ref(s, i, a) != b && b !in owner
  {
    assert SlotOwned(s, owner, i, a);
  }

  /** After a direct or indirect address is set to a fresh block, that slot is the only one that changed. */
  lemma AddrRefs(sb: Super, s: Fs, owner: Owner, i: nat, a: nat, b: nat, x: nat, y: nat)
    requires Owned(sb, s, owner) && IsFree(sb, s, b) && i < |s.inode| && a <= NDIRECT && s.inode[i].addrs[a] == 0
    requires x < |s.inode| && y < SLOTS
    ensures Ref(WithAddr(Allocated(s, b), i, a, b), x, y) == if (x, y) == (i, a) then b else Ref(s, x, y)
  {
    FreeUnnamed(sb, s, owner, b, x, NDIRECT);
    if y > NDIRECT {
      ZeroWord(y - NDIRECT - 1);
    }
  }

  lemma AllocatedBits(s: Fs, b: nat, c: nat)
    requires b / BPB < |s.bmap| && b < |s.data| && c / BPB < |s.bmap|
    ensures Bit(Allocated(s, b).bmap, c) <==> c == b || Bit(s.bmap, c)
  {
    WithBitIs(s.bmap, b, true, c);
  }

  /** One slot that was empty now names a free block, which is marked in use. */
  ghost predicate Gained(sb: Super, s: Fs, i: nat, a: nat, b: nat, s': Fs) {
    WellSized(sb, s) && WellSized(sb, s') && |s'.inode| == |s.inode| && |s'.bmap| == |s.bmap| && i < |s.inode| &&
    a < SLOTS &&
    Ref(s, i, a) == 0 && sb.nmeta <= b < sb.size && !Bit(s.bmap, b) &&
    (forall x: nat, y: nat :: x < |s.inode| && y < SLOTS ==>
        Ref(s', x, y) == if (x, y) == (i, a) then b else Ref(s, x, y)) &&
    forall c: nat :: c < sb.size ==> (Bit(s'.bmap, c) <==> c == b || Bit(s.bmap, c))
  }

  lemma GainedOwned(sb: Super, s: Fs, owner: Owner, i: nat, a: nat, b: nat, s': Fs)
    requires Owned(sb, s, owner) && Gained(sb, s, i, a, b, s')
    ensures Owned(sb, s', owner[b := (i, a)])
  {
    hide Ref;
    var owner' := owner[b := (i, a)];
    forall x: nat, y: nat | x < |s'.inode| && y < SLOTS
      ensures SlotOwned(s', owner', x, y)
    {
      assert SlotOwned(s, owner, x, y);
      if Ref(s, x, y) != 0 {
        assert BlockOwned(sb, s, owner, Ref(s, x, y));
      }
    }
    forall c | c in owner'
      ensures BlockOwned(sb, s', owner', c)
    {
      if c != b {
        assert BlockOwned(sb, s, owner, c);
      }
    }
  }

  lemma AddrGained(sb: Super, s: Fs, owner: Owner, i: nat, a: nat, b: nat)
    requires Owned(sb, s, owner) && IsFree(sb, s, b) && i < |s.inode| && a <= NDIRECT && s.inode[i].addrs[a] == 0
    ensures Gained(sb, s, i, a, b, WithAddr(Allocated(s, b), i, a, b))
  {
    var s' := WithAddr(Allocated(s, b), i, a, b);
    assert WellSized(sb, s');
    forall x: nat, y: nat | x < |s.inode| && y < SLOTS
      ensures Ref(s', x, y) == if (x, y) == (i, a) then b else Ref(s, x, y)
    {
      AddrRefs(sb, s, owner, i, a, b, x, y);
    }
    forall c: nat | c < sb.size
      ensures Bit(s'.bmap, c) <==> c == b || Bit(s.bmap, c)
    {
      AllocatedBits(s, b, c);
    }
  }

  /** An entry of the indirect block set to a fresh block. */
  function WithEntry(s: Fs, i: nat, j: nat, b: nat): Fs
    requires i < |s.inode| && |s.inode[i].addrs| == NDIRECT + 1 && s.inode[i].addrs[NDIRECT] < |s.data| &&
             j < NINDIRECT && b < 0x1_0000_0000
  {
    var ind := s.inode[i].addrs[NDIRECT];
    s.(data := s.data[ind := PutWord(s.data[ind], j, b)])
  }

  lemma EntryRefs(sb: Super, s: Fs, owner: Owner, i: nat, j: nat, b: nat, x: nat, y: nat)
    requires Owned(sb, s, owner) && IsFree(sb, s, b) && i < |s.inode| && j < NINDIRECT && s.inode[i].addrs[NDIRECT] != 0
    requires Ref(s, i, NDIRECT + 1 + j) == 0 && x < |s.inode| && y < SLOTS
    ensures s.inode[i].addrs[NDIRECT] < |s.data|
    ensures Ref(WithEntry(Allocated(s, b), i, j, b), x, y) == if (x, y) == (i, NDIRECT + 1 + j) then b else Ref(s, x, y)
  {
    assert SlotOwned(s, owner, i, NDIRECT);
    assert SlotOwned(s, owner, x, NDIRECT);
    assert BlockOwned(sb, s, owner, s.inode[i].addrs[NDIRECT]);
    FreeUnnamed(sb, s, owner, b, i, NDIRECT);
    FreeUnnamed(sb, s, owner, b, x, NDIRECT);
    if y > NDIRECT {
      GetPut(s.data[s.inode[i].addrs[NDIRECT]], j, b, y - NDIRECT - 1);
    }
  }

  lemma EntryGained(sb: Super, s: Fs, owner: Owner, i: nat, j: nat, b: nat)
    requires Owned(sb, s, owner) && IsFree(sb, s, b) && i < |s.inode| && j < NINDIRECT && s.inode[i].addrs[NDIRECT] != 0
    requires Ref(s, i, NDIRECT + 1 + j) == 0
    ensures s.inode[i].addrs[NDIRECT] < |s.data|
    ensures Gained(sb, s, i, NDIRECT + 1 + j, b, WithEntry(Allocated(s, b), i, j, b))
  {
    EntryRefs(sb, s, owner, i, j, b, i, 0);
    var s' := WithEntry(Allocated(s, b), i, j, b);
    assert WellSized(sb, s');
    forall x: nat, y: nat | x < |s.inode| && y < SLOTS
      ensures Ref(s', x, y) == if (x, y) == (i, NDIRECT + 1 + j) then b else Ref(s, x, y)
    {
      EntryRefs(sb, s, owner, i, j, b, x, y);
    }
    forall c: nat | c < sb.size
      ensures Bit(s'.bmap, c) <==> c == b || Bit(s.bmap, c)
    {
      AllocatedBits(s, b, c);
    }
  }

  // ---------------------------------------------------------------- what allocation leaves alone

  /** Block k of file x is where it was, with the contents it had. */
  ghost predicate SameBlock(s: Fs, s': Fs, x: nat, k: nat)
    requires x < |s.inode| && x < |s'.inode| && k < MAXFILE
  {
    var b := Ref(s, x, SlotOf(k));
    b != 0 && b < |s.data| ==> Ref(s', x, SlotOf(k)) == b && b < |s'.data| && s'.data[b] == s.data[b]
  }

  /** Every allocated block of every file keeps its place and contents; only inode i may have changed, and not its
      size. */
  ghost predicate FilesKept(s: Fs, s': Fs, i: nat) {
    |s'.inode| == |s.inode| && s'.dinode == s.dinode && |s'.data| == |s.data| &&
    (forall x: nat, k: nat :: x < |s.inode| && k < MAXFILE ==> SameBlock(s, s', x, k)) &&
    forall x: nat :: x < |s.inode| ==> s'.inode[x].size == s.inode[x].size && (x != i ==> s'.inode[x] == s.inode[x])
  }

  lemma AddrKept(sb: Super, s: Fs, owner: Owner, i: nat, a: nat, b: nat)
    requires Owned(sb, s, owner) && IsFree(sb, s, b) && i < |s.inode| && a <= NDIRECT && s.inode[i].addrs[a] == 0
    ensures FilesKept(s, WithAddr(Allocated(s, b), i, a, b), i)
  {
    var s' := WithAddr(Allocated(s, b), i, a, b);
    forall x: nat, k: nat | x < |s.inode| && k < MAXFILE
      ensures SameBlock(s, s', x, k)
    {
      AddrRefs(sb, s, owner, i, a, b, x, SlotOf(k));
      FreeUnnamed(sb, s, owner, b, x, SlotOf(k));
    }
  }

  lemma EntryKept(sb: Super, s: Fs, owner: Owner, i: nat, j: nat, b: nat)
    requires Owned(sb, s, owner) && IsFree(sb, s, b) && i < |s.inode| && j < NINDIRECT && s.inode[i].addrs[NDIRECT] != 0
    requires Ref(s, i, NDIRECT + 1 + j) == 0
    ensures s.inode[i].addrs[NDIRECT] < |s.data|
    ensures FilesKept(s, WithEntry(Allocated(s, b), i, j, b), i)
  {
    EntryRefs(sb, s, owner, i, j, b, i, 0);
    var s' := WithEntry(Allocated(s, b), i, j, b);
    assert SlotOwned(s, owner, i, NDIRECT);
    forall x: nat, k: nat | x < |s.inode| && k < MAXFILE
      ensures SameBlock(s, s', x, k)
    {
      EntryRefs(sb, s, owner, i, j, b, x, SlotOf(k));
      FreeUnnamed(sb, s, owner, b, x, SlotOf(k));
      assert SlotOwned(s, owner, x, SlotOf(k));
    }
  }

  lemma KeptTrans(s: Fs, s1: Fs, s2: Fs, i: nat)
    requires FilesKept(s, s1, i) && FilesKept(s1, s2, i)
    ensures FilesKept(s, s2, i)
  {
    hide Ref;
    forall x: nat, k: nat | x < |s.inode| && k < MAXFILE
      ensures SameBlock(s, s2, x, k)
    {
      assert SameBlock(s, s1, x, k) && SameBlock(s1, s2, x, k);
    }
  }

  // ---------------------------------------------------------------- exact allocation
  lemma GainedExact(sb: Super, s: Fs, nb: seq<nat>, i: nat, b: nat, s': Fs)
    requires Exact(s, nb) && i < |nb| && nb[i] < MAXFILE && nb[i] != NDIRECT && Gained(sb, s, i, SlotOf(nb[i]), b, s')
    ensures Exact(s', nb[i := nb[i] + 1])
  {
  }

  lemma GainedBothExact(sb: Super, s: Fs, nb: seq<nat>, i: nat, ind: nat, s1: Fs, b: nat, s2: Fs)
    requires Exact(s, nb) && i < |nb| && nb[i] == NDIRECT && Gained(sb, s, i, NDIRECT, ind, s1) &&
             Gained(sb, s1, i, NDIRECT + 1, b, s2)
    ensures Exact(s2, nb[i := nb[i] + 1])
  {
  }

  // ---------------------------------------------------------------- bmap

  /** bmap found or made block bn of file i at disk block b. `made` lists the blocks it allocated. */
  ghost predicate Mapped(sb: Super, s: Fs, owner: Owner, nb: seq<nat>, i: nat, bn: nat, s': Fs, owner': Owner, b: nat,
      made: seq<nat>)
    requires i < |s.inode| == |nb| && bn < MAXFILE
  {
    Owned(sb, s', owner') && FilesKept(s, s', i) && b == Ref(s', i, SlotOf(bn)) && 0 < b < |s'.data| &&
    (Ref(s, i, NDIRECT) != 0 ==> Ref(s', i, NDIRECT) == Ref(s, i, NDIRECT)) &&
    if bn < nb[i] then s' == s && owner' == owner && made == []
    else
      Exact(s', nb[i := bn + 1]) && s'.data[b] == Zero() &&
      |made| == (if bn == NDIRECT then 2 else 1) && made[|made| - 1] == b &&
      (bn == NDIRECT ==> made[0] == Ref(s', i, NDIRECT))
  }

  lemma FoundMapped(sb: Super, s: Fs, owner: Owner, nb: seq<nat>, i: nat, bn: nat)
    requires Owned(sb, s, owner) && Exact(s, nb) && i < |nb| && bn < nb[i]
    ensures ExactFor(s, i, nb[i]) && Mapped(sb, s, owner, nb, i, bn, s, owner, Ref(s, i, SlotOf(bn)), [])
  {
    assert ExactFor(s, i, nb[i]);
    assert SlotOwned(s, owner, i, SlotOf(bn));
    hide Ref;
  }

  lemma DirectMapped(sb: Super, s: Fs, owner: Owner, nb: seq<nat>, i: nat, b: nat)
    requires Owned(sb, s, owner) && Exact(s, nb) && i < |nb| && nb[i] < NDIRECT && IsFree(sb, s, b)
    ensures s.inode[i].addrs[nb[i]] == 0
    ensures Mapped(sb, s, owner, nb, i, nb[i], WithAddr(Allocated(s, b), i, nb[i], b), owner[b := (i, nb[i])], b, [b])
  {
    assert ExactFor(s, i, nb[i]);
    assert SlotOf(nb[i]) == nb[i];
    assert Ref(s, i, SlotOf(nb[i])) == 0;
    AddrGained(sb, s, owner, i, nb[i], b);
    AddrKept(sb, s, owner, i, nb[i], b);
    var s' := WithAddr(Allocated(s, b), i, nb[i], b);
    GainedOwned(sb, s, owner, i, nb[i], b, s');
    GainedExact(sb, s, nb, i, b, s');
    hide FilesKept, Owned;
  }

  lemma EntryMapped(sb: Super, s: Fs, owner: Owner, nb: seq<nat>, i: nat, b: nat)
    requires Owned(sb, s, owner) && Exact(s, nb) && i < |nb| && NDIRECT < nb[i] < MAXFILE && IsFree(sb, s, b)
    ensures 0 < s.inode[i].addrs[NDIRECT] < |s.data|
    ensures Mapped(sb, s, owner, nb, i, nb[i], WithEntry(Allocated(s, b), i, nb[i] - NDIRECT, b),
              owner[b := (i, nb[i] + 1)], b, [b])
  {
    var j := nb[i] - NDIRECT;
    assert ExactFor(s, i, nb[i]);
    assert SlotOf(nb[i]) == NDIRECT + 1 + j;
    assert Ref(s, i, SlotOf(nb[i])) == 0;
    EntryGained(sb, s, owner, i, j, b);
    EntryKept(sb, s, owner, i, j, b);
    FreeUnnamed(sb, s, owner, b, i, NDIRECT);
    var s' := WithEntry(Allocated(s, b), i, j, b);
    GainedOwned(sb, s, owner, i, NDIRECT + 1 + j, b, s');
    GainedExact(sb, s, nb, i, b, s');
    hide FilesKept, Owned;
  }

  /** The first block past the direct ones takes two allocations: the indirect block and then the block itself. */
  lemma BothMapped(sb: Super, s: Fs, owner: Owner, nb: seq<nat>, i: nat, ind: nat, b: nat)
    requires Owned(sb, s, owner) && Exact(s, nb) && i < |nb| && nb[i] == NDIRECT && IsFree(sb, s, ind)
    requires s.inode[i].addrs[NDIRECT] == 0 && IsFree(sb, WithAddr(Allocated(s, ind), i, NDIRECT, ind), b)
    ensures var s1 := WithAddr(Allocated(s, ind), i, NDIRECT, ind);
            Mapped(sb, s, owner, nb, i, NDIRECT, WithEntry(Allocated(s1, b), i, 0, b),
              owner[ind := (i, NDIRECT)][b := (i, NDIRECT + 1)], b, [ind, b])
  {
    var s1 := WithAddr(Allocated(s, ind), i, NDIRECT, ind);
    var owner1 := owner[ind := (i, NDIRECT)];
    assert ExactFor(s, i, nb[i]);
    AddrGained(sb, s, owner, i, NDIRECT, ind);
    AddrKept(sb, s, owner, i, NDIRECT, ind);
    GainedOwned(sb, s, owner, i, NDIRECT, ind, s1);
    assert SlotOf(NDIRECT) == NDIRECT + 1;
    assert Ref(s1, i, NDIRECT + 1) == 0;
    EntryGained(sb, s1, owner1, i, 0, b);
    EntryKept(sb, s1, owner1, i, 0, b);
    FreeUnnamed(sb, s1, owner1, b, i, NDIRECT);
    var s2 := WithEntry(Allocated(s1, b), i, 0, b);
    GainedOwned(sb, s1, owner1, i, NDIRECT + 1, b, s2);
    GainedBothExact(sb, s, nb, i, ind, s1, b, s2);
    KeptTrans(s, s1, s2, i);
    hide FilesKept, Owned, Exact;
  }

  // ---------------------------------------------------------------- file contents

  function WithData(s: Fs, b: nat, d: Block): Fs
    requires b < |s.data|
  {
    s.(data := s.data[b := d])
  }

  /** Writing a file's data block disturbs no address. */
  lemma DataRefs(sb: Super, s: Fs, owner: Owner, i: nat, k: nat, d: Block, x: nat, y: nat)
    requires Owned(sb, s, owner) && i < |s.inode| && k < MAXFILE && 0 < Ref(s, i, SlotOf(k)) < |s.data|
    requires x < |s.inode| && y < SLOTS
    ensures Ref(WithData(s, Ref(s, i, SlotOf(k)), d), x, y) == Ref(s, x, y)
  {
    assert SlotOwned(s, owner, i, SlotOf(k));
    assert SlotOwned(s, owner, x, NDIRECT);
  }

  /** Only block k of file i has new contents. */
  ghost predicate OneBlock(s: Fs, s': Fs, i: nat, k: nat, d: Block) {
    s'.inode == s.inode && s'.dinode == s.dinode && s'.bmap == s.bmap && |s'.data| == |s.data| && i < |s.inode| &&
    k < MAXFILE &&
    (forall x: nat, y: nat :: x < |s.inode| && y < SLOTS ==> Ref(s', x, y) == Ref(s, x, y)) &&
    Ref(s, i, SlotOf(k)) < |s.data| && s'.data[Ref(s, i, SlotOf(k))] == d &&
    forall x: nat, j: nat :: x < |s.inode| && j < MAXFILE && (x != i || j != k) ==> SameBlock(s, s', x, j)
  }

  lemma DataOneBlock(sb: Super, s: Fs, owner: Owner, i: nat, k: nat, d: Block)
    requires Owned(sb, s, owner) && i < |s.inode| && k < MAXFILE && 0 < Ref(s, i, SlotOf(k)) < |s.data|
    ensures OneBlock(s, WithData(s, Ref(s, i, SlotOf(k)), d), i, k, d)
  {
    var b := Ref(s, i, SlotOf(k));
    var s' := WithData(s, b, d);
    forall x: nat, y: nat | x < |s.inode| && y < SLOTS
      ensures Ref(s', x, y) == Ref(s, x, y)
    {
      DataRefs(sb, s, owner, i, k, d, x, y);
    }
    assert SlotOwned(s, owner, i, SlotOf(k));
    forall x: nat, j: nat | x < |s.inode| && j < MAXFILE && (x != i || j != k)
      ensures SameBlock(s, s', x, j)
    {
      assert SlotOwned(s, owner, x, SlotOf(j));
    }
  }

  lemma OneBlockKeeps(sb: Super, s: Fs, owner: Owner, nb: seq<nat>, i: nat, k: nat, d: Block, s': Fs)
    requires Owned(sb, s, owner) && Exact(s, nb) && OneBlock(s, s', i, k, d)
    ensures Owned(sb, s', owner) && Exact(s', nb)
  {
    hide Ref;
    forall x: nat, y: nat | x < |s'.inode| && y < SLOTS
      ensures SlotOwned(s', owner, x, y)
    {
      assert SlotOwned(s, owner, x, y);
    }
    forall b | b in owner
      ensures BlockOwned(sb, s', owner, b)
    {
      assert BlockOwned(sb, s, owner, b);
    }
    forall x: nat | x < |nb|
      ensures ExactFor(s', x, nb[x])
    {
      assert ExactFor(s, x, nb[x]);
    }
  }

  /** Byte p of file i. */
  function ByteAt(s: Fs, i: nat, p: nat): byte
    requires i < |s.inode|
  {
    if p / BSIZE < MAXFILE && Ref(s, i, SlotOf(p / BSIZE)) < |s.data| then FileBlock(s, i, p / BSIZE)[p % BSIZE] else 0
  }

  /** The bytes of file i. */
  function Content(s: Fs, i: nat): (r: seq<byte>)
    requires i < |s.inode|
    ensures |r| == s.inode[i].size
  {
    seq(s.inode[i].size, p requires 0 <= p => ByteAt(s, i, p))
  }

  /** The bytes `src` written over `c` from offset off on. */
  function Overlay(c: seq<byte>, off: nat, src: seq<byte>): (r: seq<byte>)
    requires off <= |c|
  {
    c[..off] + src + if off + |src| < |c| then c[off + |src|..] else []
  }

  /** What was written reads back, and all other bytes are as they were. */
  lemma OverlayReads(c: seq<byte>, off: nat, src: seq<byte>)
    requires off <= |c|
    ensures var r := Overlay(c, off, src);
            |r| == (if off + |src| < |c| then |c| else off + |src|) && r[off..off + |src|] == src &&
            forall p :: 0 <= p < |c| && !(off <= p < off + |src|) ==> r[p] == c[p]
  {
  }

  /** Where allocated blocks keep place and contents, so do the bytes in them. */
  lemma KeptByte(s: Fs, s': Fs, x: nat, p: nat)
    requires x < |s.inode| && x < |s'.inode| && p / BSIZE < MAXFILE && SameBlock(s, s', x, p / BSIZE)
    requires 0 < Ref(s, x, SlotOf(p / BSIZE)) < |s.data|
    ensures ByteAt(s', x, p) == ByteAt(s, x, p)
  {
  }
}
