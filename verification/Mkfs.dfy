/** mkfs.c: the program that builds the first file system image. Blocks are handed out by a counter and the bitmap is
    written once at the end; seen through the bitmap it will write, the image keeps the kernel's invariant all along. */
module Mkfs {
  import opened Basics
  import opened Blocks
  import opened Bitmap
  import opened FsModel
  import opened FsBytes
  import opened FsTrunc
  import opened FsCode
  import opened LogDisk

  const FSSIZE: nat := 1000
  const NINODES: nat := 200
  const NBITMAP: nat := FSSIZE / BPB + 1
  const NINODEBLOCKS: nat := NINODES / IPB + 1
  const NMETA: nat := 2 + LOGSIZE + NINODEBLOCKS + NBITMAP
  const ROOTINO: nat := 1
  const DIRENT: nat := 16

  function Sb(): Super {
    Super(FSSIZE, NMETA, 2 + LOGSIZE + NINODEBLOCKS, 2 + LOGSIZE)
  }

  /** The bitmap block with the bits of the first n blocks set. */
  function Upto(n: nat): Block
    requires n <= BPB
  {
    if n == 0 then Zero() else WithBit([Upto(n - 1)], n - 1, true)[0]
  }

  lemma ZeroBit(k: nat)
    ensures !BitOf(0, k)
  {
  }

  lemma NoneBit(c: nat)
    requires c < BPB
    ensures !Bit([Upto(0)], c)
  {
    ZeroBit(c % 8);
  }

  lemma {:induction false} UptoBit(n: nat, c: nat)
    requires n <= BPB && c < BPB
    ensures Bit([Upto(n)], c) <==> c < n
  {
    hide WithBit, Bit, Upto;
    if n == 0 {
      NoneBit(c);
    } else {
      UptoBit(n - 1, c);
      WithBitIs([Upto(n - 1)], n - 1, true, c);
      UptoNext(n - 1);
    }
  }

  /** More bytes than a file can have. */
  predicate TooLarge(n: nat) {
    n > MAXFILE * BSIZE
  }

  /** Disk blocks of a file with n blocks of data: those, and the indirect block of one with more than NDIRECT. */
  function Cost(n: nat): nat {
    n + if n > NDIRECT then 1 else 0
  }

  /** Disk blocks of a file of so many bytes. */
  function SizeCost(bytes: nat): nat {
    Cost(BlocksFor(bytes))
  }

  lemma SizeCostGrows(a: nat, b: nat)
    requires a <= b
    ensures SizeCost(a) <= SizeCost(b)
  {
  }

  function FilesCost(files: seq<seq<byte>>): nat {
    if files == [] then 0 else FilesCost(files[..|files| - 1]) + SizeCost(|files[|files| - 1]|)
  }

  lemma FilesCostOne(files: seq<seq<byte>>, k: nat)
    requires k < |files|
    ensures FilesCost(files[..k + 1]) == FilesCost(files[..k]) + SizeCost(|files[k]|)
  {
    assert files[..k + 1][..k] == files[..k];
  }

  lemma {:induction false} FilesCostGrows(files: seq<seq<byte>>, k: nat)
    requires k <= |files|
    ensures FilesCost(files[..k]) <= FilesCost(files)
    decreases |files| - k
  {
    if k < |files| {
      FilesCostOne(files, k);
      FilesCostGrows(files, k + 1);
    } else {
      assert files[..k] == files;
    }
  }

  /** Whether files fit an image whose next block is `free` and whose root directory, of `root` bytes so far, gets
      their entries. */
  ghost predicate Room(free: nat, root: nat, more: nat, files: seq<seq<byte>>) {
    free + SizeCost(root + more) - SizeCost(root) + FilesCost(files) <= FSSIZE && !TooLarge(root + more) &&
    forall k :: 0 <= k < |files| ==> !TooLarge(|files[k]|)
  }

  lemma {:induction false} EmptyFilesCost(files: seq<seq<byte>>)
    requires forall k :: 0 <= k < |files| ==> files[k] == []
    ensures FilesCost(files) == 0
  {
    if files != [] {
      EmptyFilesCost(files[..|files| - 1]);
    }
  }

  lemma OneCost(file: seq<byte>)
    ensures FilesCost([file]) == SizeCost(|file|) && SizeCost(0) == 0
  {
  }

  lemma RoomOne(free: nat, root: nat, more: nat, file: seq<byte>)
    ensures Room(free, root, more, [file]) <==>
            free + SizeCost(root + more) - SizeCost(root) + SizeCost(|file|) <= FSSIZE && !TooLarge(root + more) &&
            !TooLarge(|file|)
  {
    OneCost(file);
    assert [file][0] == file;
  }

  /** From block freeblock on nothing has been written. */
  ghost predicate Unused(data: seq<Block>, freeblock: nat) {
    forall c: nat :: freeblock <= c < |data| ==> data[c] == Zero()
  }

  lemma UptoNext(n: nat)
    requires n < BPB
    ensures [Upto(n + 1)] == WithBit([Upto(n)], n, true)
  {
  }

  lemma EmptyOwned(data: seq<Block>, inode: seq<Inode>, nb: seq<nat>)
    requires |data| == FSSIZE && |nb| == |inode| && forall i: nat :: i < |inode| ==>
             inode[i] == Inode(0, NoAddrs()) && nb[i] == 0
    ensures var s := Fs([Upto(NMETA)], data, inode, inode); Owned(Sb(), s, map[]) && Exact(s, nb) && Counted(s, nb)
  {
    hide Upto, Bit;
    var s := Fs([Upto(NMETA)], data, inode, inode);
    forall b: nat | b < FSSIZE
      ensures Bit(s.bmap, b) <==> b < NMETA
    {
      UptoBit(NMETA, b);
    }
    forall i: nat | i < |nb|
      ensures ExactFor(s, i, nb[i])
    {
    }
  }

  lemma AddrsLength(s: Fs, owner: Owner, i: nat)
    requires Owned(Sb(), s, owner) && i < |s.inode|
    ensures |s.inode[i].addrs| == NDIRECT + 1
  {
  }

  lemma SizesEqual(s: Fs, owner: Owner, nb: seq<nat>)
    requires Owned(Sb(), s, owner) && Exact(s, nb)
    ensures |s.inode| == |s.dinode| == |nb|
  {
  }

  lemma MappedOwned(sb: Super, s: Fs, owner: Owner, nb: seq<nat>, i: nat, bn: nat, s': Fs, owner': Owner, b: nat,
      made: seq<nat>)
    requires i < |s.inode| == |nb| && bn < MAXFILE && bn <= nb[i] && Exact(s, nb) &&
             Mapped(sb, s, owner, nb, i, bn, s', owner', b, made)
    ensures Owned(sb, s', owner') && b == Ref(s', i, SlotOf(bn)) && 0 < b < |s'.data| && i < |s'.inode|
    ensures Exact(s', if bn < nb[i] then nb else nb[i := bn + 1])
  {
  }

  /** A block that is named has been handed out. */
  lemma NamedBelow(freeblock: nat, s: Fs, owner: Owner, i: nat, a: nat)
    requires NMETA <= freeblock <= FSSIZE && s.bmap == [Upto(freeblock)] && Owned(Sb(), s, owner) && i < |s.inode| &&
             a < SLOTS && Ref(s, i, a) != 0
    ensures Ref(s, i, a) < freeblock
  {
    hide Upto, Bit, Ref;
    assert SlotOwned(s, owner, i, a);
    assert BlockOwned(Sb(), s, owner, Ref(s, i, a));
    UptoBit(freeblock, Ref(s, i, a));
  }

  lemma AppendCount(n0: nat, off: nat, tot: nat, m: nat, len: nat)
    requires off / BSIZE <= n0 && tot < len && (tot > 0 ==> (off + tot) % BSIZE == 0) && (off + tot) / BSIZE < MAXFILE
    requires m == if len - tot < BSIZE - (off + tot) % BSIZE then len - tot else BSIZE - (off + tot) % BSIZE
    ensures 0 < m <= len - tot && (off + tot) % BSIZE + m <= BSIZE && (off + tot) / BSIZE <= Count(n0, off, tot)
    ensures Count(Count(n0, off, tot), off + tot, m) == Count(n0, off, tot + m)
    ensures tot + m < len ==> (off + tot + m) % BSIZE == 0
  {
  }

  lemma AppendShort(off: nat, end: nat)
    requires off < end
    ensures Cost(off / BSIZE + 1) <= SizeCost(end)
  {
  }

  lemma AppendAll(size: nat, len: nat)
    ensures Count(BlocksFor(size), size, len) == BlocksFor(size + len)
  {
  }

  lemma AppendOverlay(c: seq<byte>, p: seq<byte>)
    ensures Overlay(c, |c|, p) == c + p
  {
  }

  /** Rounding the root directory's size as main does keeps the image consistent exactly when the size was not a
      multiple of the block size already: otherwise the directory claims a block it does not have. */
  lemma RootFix(s: Fs, owner: Owner, i: nat)
    requires Consistent(Sb(), s, owner) && i < |s.inode|
    ensures Consistent(Sb(), Rounded(s, i), owner) <==> s.inode[i].size % BSIZE != 0
  {
    var s' := Rounded(s, i);
    hide Owned;
    RoundedRefs(s, i, i, NDIRECT);
    forall k: nat | k < MAXFILE
      ensures Ref(s', i, SlotOf(k)) == Ref(s, i, SlotOf(k))
    {
      RoundedRefs(s, i, i, SlotOf(k));
    }
    if s.inode[i].size % BSIZE != 0 {
      RoundedKeeps(s, owner, i);
    } else {
      assert ExactFor(s, i, BlocksFor(s.inode[i].size));
      var n := BlocksFor(s.inode[i].size);
      assert n < MAXFILE ==> Ref(s', i, SlotOf(n)) == 0;
      assert !ExactFor(s', i, n + 1);
    }
  }

  lemma BuildDone(s: Fs, owner: Owner, nb: seq<nat>, dot: seq<byte>, dotdot: seq<byte>, entries: seq<seq<byte>>)
    requires Owned(Sb(), s, owner) && Exact(s, nb) && Counted(s, nb) && s.inode == s.dinode && ROOTINO < |s.inode|
    requires |dot| == |dotdot| == DIRENT && (forall e :: e in entries ==> |e| == DIRENT)
    requires Content(s, ROOTINO) == dot + dotdot + Joined(entries)
    ensures |s.dinode| == |s.inode| && dot + dotdot + Joined(entries) <= Content(Rounded(s, ROOTINO), ROOTINO)
    ensures forall x: nat :: x < |s.inode| && x != ROOTINO ==> Content(Rounded(s, ROOTINO), x) == Content(s, x)
    ensures Consistent(Sb(), Rounded(s, ROOTINO), owner) <==> (|entries| + 2) * DIRENT % BSIZE != 0
  {
    hide Owned, Exact, Counted, Content, BlocksFor, Consistent, Joined, Rounded;
    CountedExact(Sb(), s, owner, nb);
    SizesEqual(s, owner, nb);
    RootSize(s, dot, dotdot, entries);
    RootFix(s, owner, ROOTINO);
    RoundedContents(s, ROOTINO);
  }

  lemma RootSize(s: Fs, dot: seq<byte>, dotdot: seq<byte>, entries: seq<seq<byte>>)
    requires ROOTINO < |s.inode| && |dot| == |dotdot| == DIRENT && (forall e :: e in entries ==> |e| == DIRENT)
    requires Content(s, ROOTINO) == dot + dotdot + Joined(entries)
    ensures s.inode[ROOTINO].size == (|entries| + 2) * DIRENT
  {
    hide Joined, ByteAt;
    JoinedLength(entries);
  }

  function Rounded(s: Fs, i: nat): Fs
    requires i < |s.inode| && i < |s.dinode|
  {
    var ip := s.inode[i].(size := (s.inode[i].size / BSIZE + 1) * BSIZE);
    s.(inode := s.inode[i := ip], dinode := s.dinode[i := ip])
  }

  lemma RoundedSizes(s: Fs, i: nat)
    requires i < |s.inode| == |s.dinode|
    ensures |Rounded(s, i).inode| == |s.inode|
  {
  }

  lemma RoundedRefs(s: Fs, i: nat, x: nat, y: nat)
    requires i < |s.inode| && i < |s.dinode| && x < |s.inode| && y < SLOTS
    ensures Ref(Rounded(s, i), x, y) == Ref(s, x, y)
  {
  }

  lemma RoundedKeeps(s: Fs, owner: Owner, i: nat)
    requires Consistent(Sb(), s, owner) && i < |s.inode| && s.inode[i].size % BSIZE != 0
    ensures Consistent(Sb(), Rounded(s, i), owner)
  {
    assert Rounded(s, i) == Resized(s, i, (s.inode[i].size / BSIZE + 1) * BSIZE);
    var nb := seq(|s.inode|, x requires 0 <= x < |s.inode| => BlocksFor(s.inode[x].size));
    ResizedOwned(Sb(), s, owner, nb, i, (s.inode[i].size / BSIZE + 1) * BSIZE);
    CountedExact(Sb(), Rounded(s, i), owner, nb);
  }

  lemma RoundedContents(s: Fs, i: nat)
    requires i < |s.inode| == |s.dinode|
    ensures Content(s, i) <= Content(Rounded(s, i), i)
    ensures forall x: nat :: x < |s.inode| && x != i ==> Content(Rounded(s, i), x) == Content(s, x)
  {
  }

  function Joined(parts: seq<seq<byte>>): seq<byte> {
    if parts == [] then [] else Joined(parts[..|parts| - 1]) + parts[|parts| - 1]
  }

  lemma JoinedNone(parts: seq<seq<byte>>, c: seq<byte>)
    ensures c + Joined(parts[..0]) == c
  {
  }

  lemma JoinedOne(parts: seq<seq<byte>>, k: nat)
    requires k < |parts|
    ensures Joined(parts[..k + 1]) == Joined(parts[..k]) + parts[k]
  {
    assert parts[..k + 1][..k] == parts[..k];
  }

  lemma {:induction false} JoinedPrefix(parts: seq<seq<byte>>, k: nat)
    requires k < |parts|
    ensures |Joined(parts[..k])| + |parts[k]| <= |Joined(parts)|
    decreases |parts|
  {
    var init := parts[..|parts| - 1];
    if k < |init| {
      JoinedPrefix(init, k);
      assert init[..k] == parts[..k];
    }
  }

  lemma {:induction false} JoinedLength(parts: seq<seq<byte>>)
    requires forall e :: e in parts ==> |e| == DIRENT
    ensures |Joined(parts)| == |parts| * DIRENT
  {
    if parts != [] {
      JoinedLength(parts[..|parts| - 1]);
    }
  }

  /** The directory of n files takes a whole number of blocks exactly when n is 30 more than a multiple of 32, and its
      first two entries one block. */
  lemma DirectoryCosts(n: nat)
    ensures (n + 2) * DIRENT % BSIZE == 0 <==> n % 32 == 30
    ensures SizeCost(0) == 0 && SizeCost(DIRENT) == SizeCost(2 * DIRENT) == 1 <= SizeCost((n + 2) * DIRENT)
  {
    SizeCostGrows(DIRENT, (n + 2) * DIRENT);
  }

  /** The first two entries take the root directory's first block. */
  lemma RoomRoot(free: nat, files: seq<seq<byte>>)
    ensures Room(free, 0, (|files| + 2) * DIRENT, files) <==>
            free + 1 <= FSSIZE && Room(free + 1, 2 * DIRENT, |files| * DIRENT, files)
    ensures !TooLarge(DIRENT) && !TooLarge(2 * DIRENT)
  {
    DirectoryCosts(|files|);
    assert 2 * DIRENT + |files| * DIRENT == (|files| + 2) * DIRENT;
  }

  /** The first k files and their entries are in, and the next block is `free`. */
  ghost predicate RoomFor(free0: nat, root: nat, entries: seq<seq<byte>>, files: seq<seq<byte>>, k: nat, free: nat) {
    k <= |files| == |entries| &&
    var more := |Joined(entries[..k])|;
    free == free0 + SizeCost(root + more) - SizeCost(root) + FilesCost(files[..k]) &&
    Room(free0, root, more, files[..k])
  }

  lemma RoomStart(free0: nat, root: nat, entries: seq<seq<byte>>, files: seq<seq<byte>>)
    requires |files| == |entries| && free0 <= FSSIZE && !TooLarge(root)
    ensures RoomFor(free0, root, entries, files, 0, free0)
  {
  }

  lemma RoomEnd(free0: nat, root: nat, entries: seq<seq<byte>>, files: seq<seq<byte>>, free: nat)
    requires RoomFor(free0, root, entries, files, |files|, free)
    ensures Room(free0, root, |Joined(entries)|, files)
  {
    assert entries[..|files|] == entries && files[..|files|] == files;
  }

  /** The next file either fits, or there is no room for all of them. */
  lemma RoomNext(free0: nat, root: nat, entries: seq<seq<byte>>, files: seq<seq<byte>>, k: nat, free: nat)
    requires RoomFor(free0, root, entries, files, k, free) && k < |files|
    ensures var r := root + |Joined(entries[..k])|;
            var next := free + SizeCost(r + |entries[k]|) - SizeCost(r) + SizeCost(|files[k]|);
            if Room(free, r, |entries[k]|, [files[k]]) then next >= 0 &&
              RoomFor(free0, root, entries, files, k + 1, next)
            else !Room(free0, root, |Joined(entries)|, files)
  {
    hide SizeCost, FilesCost, Joined;
    var r := root + |Joined(entries[..k])|;
    JoinedOne(entries, k);
    FilesCostOne(files, k);
    OneCost(files[k]);
    SizeCostGrows(r, r + |entries[k]|);
    if Room(free, r, |entries[k]|, [files[k]]) {
      forall j | 0 <= j < k + 1
        ensures !TooLarge(|files[j]|)
      {
        assert j < k ==> files[j] == files[..k][j];
        assert files[k] == [files[k]][0];
      }
    } else {
      JoinedPrefix(entries, k);
      SizeCostGrows(r + |entries[k]|, root + |Joined(entries)|);
      FilesCostGrows(files, k + 1);
    }
  }

  // ---------------------------------------------------------------- the code

  /** The image while it is built. */
  class Image {
    var freeblock: nat
    var freeinode: nat
    var data: seq<Block>
    var inode: seq<Inode>
    var dinode: seq<Inode>
    var bitmap: Block // as on disk
    ghost var owner: Owner
    ghost var nb: seq<nat>

    ghost function Abs(): Fs
      requires freeblock <= BPB
      reads this
    {
      Fs([Upto(freeblock)], data, inode, dinode)
    }

    ghost predicate Valid()
      reads this
    {
      NMETA <= freeblock <= FSSIZE && Owned(Sb(), Abs(), owner) && Exact(Abs(), nb) && Unused(data, freeblock)
    }

    ghost predicate Steady()
      reads this
    {
      Valid() && inode == dinode && Counted(Abs(), nb)
    }

    /** A zeroed disk, no inode in use, every block after the metadata free. */
    constructor ()
      ensures Steady() && freeblock == NMETA && freeinode == 1 && |inode| == NINODES && Blank()
    {
      freeblock, freeinode := NMETA, 1;
      data := seq(FSSIZE, i => Zero());
      inode, dinode := seq(NINODES, i => Inode(0, NoAddrs())), seq(NINODES, i => Inode(0, NoAddrs()));
      bitmap := Zero();
      owner, nb := map[], seq(NINODES, i => 0);
      new;
      EmptyOwned(data, inode, nb);
    }

    /** freeblock++, which is what the kernel's balloc does: the lowest free block, marked and zeroed. */
    method Fresh() returns (ok: bool, b: nat)
      requires NMETA <= freeblock <= FSSIZE && Owned(Sb(), Abs(), owner) && Unused(data, freeblock)
      modifies this`freeblock
      ensures freeblock <= FSSIZE && old(freeblock) <= freeblock && ok == (old(freeblock) < FSSIZE) &&
              (!ok ==> freeblock == FSSIZE)
      ensures ok ==>
                b == old(freeblock) && freeblock == b + 1 && IsFree(Sb(), old(Abs()), b) &&
                Abs() == Allocated(old(Abs()), b)
      ensures Unused(data, freeblock)
    {
      hide Bit, WithBit, SlotOwned, BlockOwned, Zero, Upto;
      b, ok := freeblock, freeblock < FSSIZE;
      if ok {
        UptoBit(freeblock, freeblock);
        UptoNext(freeblock);
        freeblock := freeblock + 1;
        assert data == data[b := Zero()];
      }
    }

    /** The block lookup of iappend: block fbn of file i, the next one if it is not there. */
    method Lookup(i: nat, fbn: nat) returns (ok: bool, x: nat, ghost made: seq<nat>)
      requires Valid() && i < |inode| && fbn <= nb[i] && fbn < MAXFILE
      modifies this`freeblock, this`data, this`inode, this`owner, this`nb
      ensures !ok ==> fbn == old(nb)[i] && old(freeblock) + Cost(fbn + 1) - Cost(fbn) > FSSIZE
      ensures ok ==> Valid() && Mapped(Sb(), old(Abs()), old(owner), old(nb), i, fbn, Abs(), owner, x, made)
      ensures ok ==> nb == (if fbn < old(nb)[i] then old(nb) else old(nb)[i := fbn + 1])
      ensures ok ==> freeblock == old(freeblock) + Cost(nb[i]) - Cost(old(nb)[i])
    {
      hide Owned, Mapped, ExactFor, Bit, Upto, Unused;
      ghost var s, owner0 := Abs(), owner;
      ExactMeans(s, nb, i, fbn);
      AddrsLength(s, owner, i);
      made := [];
      if fbn < nb[i] {
        FoundMapped(Sb(), s, owner, nb, i, fbn);
      }
      if fbn < NDIRECT {
        ok, x := true, inode[i].addrs[fbn];
        if x == 0 {
          ok, x := Fresh();
          if ok {
            DirectMapped(Sb(), s, owner, nb, i, x);
            MappedOwned(Sb(), s, owner, nb, i, fbn, WithAddr(Allocated(s, x), i, fbn, x), owner[x := (i, fbn)], x, [x]);
            inode := inode[i := inode[i].(addrs := inode[i].addrs[fbn := x])];
            owner, nb, made := owner[x := (i, fbn)], nb[i := fbn + 1], [x];
          }
        }
        return;
      }
      var ind;
      ok, ind, made := LoadIndirect(i);
      if !ok {
        return false, 0, [];
      }
      IndirectInRange(Sb(), Abs(), owner, i);
      LoadedEntry(Sb(), s, owner0, nb, i, fbn, ind, Abs(), owner, made);
      x := GetWord(data[ind], fbn - NDIRECT);
      if x == 0 {
        ghost var made0 := made;
        ok, x, made := AddEntry(i, fbn, s, owner0, made0);
      }
    }

    method LoadIndirect(i: nat) returns (ok: bool, ind: nat, ghost made: seq<nat>)
      requires Valid() && i < |inode|
      modifies this`freeblock, this`inode, this`owner
      ensures ok ==>
                NMETA <= freeblock <= FSSIZE && Owned(Sb(), Abs(), owner) && |inode| == |old(inode)| &&
                ind == inode[i].addrs[NDIRECT] != 0
      ensures ok ==> Loaded(Sb(), old(Abs()), old(owner), i, ind, Abs(), owner, made) && Unused(data, freeblock)
      ensures ok == (old(inode)[i].addrs[NDIRECT] != 0 || old(freeblock) < FSSIZE)
      ensures ok ==> freeblock == old(freeblock) + if old(inode)[i].addrs[NDIRECT] != 0 then 0 else 1
    {
      hide Upto, Unused;
      made := [];
      ok, ind := true, inode[i].addrs[NDIRECT];
      if ind == 0 {
        ghost var s := Abs();
        ok, ind := Fresh();
        if !ok {
          return;
        }
        AddrOwned(Sb(), s, owner, i, ind);
        inode := inode[i := inode[i].(addrs := inode[i].addrs[NDIRECT := ind])];
        owner, made := owner[ind := (i, NDIRECT)], [ind];
      }
    }

    method AddEntry(i: nat, bn: nat, ghost s: Fs, ghost owner0: Owner, ghost made0: seq<nat>)
        returns (ok: bool, b: nat, ghost made: seq<nat>)
      requires NMETA <= freeblock <= FSSIZE && Owned(Sb(), Abs(), owner) && Unused(data, freeblock)
      requires i < |inode| == |nb| && NDIRECT <= bn == nb[i] && bn < MAXFILE && inode[i].addrs[NDIRECT] != 0
      requires Owned(Sb(), s, owner0) && Exact(s, nb) &&
               Loaded(Sb(), s, owner0, i, inode[i].addrs[NDIRECT], Abs(), owner, made0)
      modifies this`freeblock, this`data, this`owner, this`nb
      ensures ok == (old(freeblock) < FSSIZE) && (ok ==> freeblock == old(freeblock) + 1)
      ensures ok ==>
                Valid() && Mapped(Sb(), s, owner0, old(nb), i, bn, Abs(), owner, b, made) && nb == old(nb)[i := bn + 1]
    {
      hide Owned, Mapped, Exact, Bit, WithBit, Loaded, Upto;
      ghost var s1 := Abs();
      IndirectInRange(Sb(), s1, owner, i);
      NamedBelow(freeblock, s1, owner, i, NDIRECT);
      ok, b := Fresh();
      made := made0 + [b];
      if ok {
        var ind := inode[i].addrs[NDIRECT];
        LoadedMapped(Sb(), s, owner0, nb, i, bn, ind, s1, owner, made0, b);
        data := data[ind := PutWord(data[ind], bn - NDIRECT, b)];
        owner, nb := owner[b := (i, bn + 1)], nb[i := bn + 1];
      }
    }

    /** One iteration of iappend's loop. */
    method AppendOne(i: nat, off: nat, piece: seq<byte>) returns (ok: bool)
      requires Valid() && i < |inode| && off / BSIZE <= nb[i] && off / BSIZE < MAXFILE && 0 < |piece| &&
               off % BSIZE + |piece| <= BSIZE
      modifies this`freeblock, this`data, this`inode, this`owner, this`nb
      ensures !ok ==> off / BSIZE == old(nb)[i] && old(freeblock) + Cost(off / BSIZE + 1) - Cost(off / BSIZE) > FSSIZE
      ensures ok ==> Valid() && Wrote(old(Abs()), old(nb), i, off, piece, Abs(), nb)
      ensures ok ==> i < |nb| == |old(nb)| && freeblock == old(freeblock) + Cost(nb[i]) - Cost(old(nb)[i])
    {
      hide Mapped, Wrote, Owned, ExactFor, Upto;
      ghost var s, nb0, owner0 := Abs(), nb, owner;
      var x;
      ghost var made;
      ok, x, made := Lookup(i, off / BSIZE);
      if !ok {
        return;
      }
      WriteOneDone(Sb(), s, owner0, nb0, i, off, piece, Abs(), owner, nb, x, made);
      MappedOwned(Sb(), s, owner0, nb0, i, off / BSIZE, Abs(), owner, x, made);
      NamedBelow(freeblock, Abs(), owner, i, SlotOf(off / BSIZE));
      data := data[x := Spliced(data[x], off % BSIZE, piece)];
    }

    /** iappend's loop. */
    method AppendBlocks(i: nat, p: seq<byte>) returns (ok: bool)
      requires Steady() && i < |inode|
      modifies this`freeblock, this`data, this`inode, this`owner, this`nb
      ensures var size := old(inode)[i].size;
              ok == (!TooLarge(size + |p|) && old(freeblock) + SizeCost(size + |p|) - SizeCost(size) <= FSSIZE) &&
              (ok ==> freeblock == old(freeblock) + SizeCost(size + |p|) - SizeCost(size) &&
                      Valid() && Wrote(old(Abs()), old(nb), i, size, p, Abs(), nb))
    {
      hide Wrote, Owned, Exact, BlocksFor, Count, Upto, Unused;
      ghost var s, nb0 := Abs(), nb;
      var size := inode[i].size;
      var off, tot := size, 0;
      EmptyCount(size, size);
      SizeFits(Sb(), s, owner, nb, i);
      SizesEqual(s, owner, nb);
      WroteNothing(s, nb0, i, size);
      ok := true;
      while tot < |p|
        invariant tot <= |p| && off == size + tot && (0 < tot < |p| ==> off % BSIZE == 0)
        invariant Valid() && Wrote(s, nb0, i, size, p[..tot], Abs(), nb) && i < |inode| == |nb|
        invariant nb[i] == Count(nb0[i], size, tot)
        invariant off <= MAXFILE * BSIZE && freeblock == old(freeblock) + Cost(nb[i]) - Cost(nb0[i])
      {
        if off / BSIZE >= MAXFILE {
          return false;
        }
        var left := (off / BSIZE + 1) * BSIZE - off;
        var n1 := if |p| - tot < left then |p| - tot else left;
        assert left == BSIZE - off % BSIZE;
        ghost var s1, nb1 := Abs(), nb;
        AppendCount(nb0[i], size, tot, n1, |p|);
        ok := AppendOne(i, off, p[tot..tot + n1]);
        if !ok {
          AppendShort(off, size + |p|);
          return;
        }
        WroteNext(s, nb0, i, size, p, tot, n1, s1, nb1, Abs(), nb);
        tot, off := tot + n1, off + n1;
      }
      assert p[..tot] == p;
      AppendAll(size, |p|);
    }

    /** iappend: the bytes go to the end of file i. `ok` is false where the file outgrows MAXFILE or the disk is
        full. */
    method Iappend(i: nat, p: seq<byte>) returns (ok: bool)
      requires Steady() && i < |inode|
      modifies this`freeblock, this`data, this`inode, this`dinode, this`owner, this`nb
      ensures var size := old(inode)[i].size;
              ok == (!TooLarge(size + |p|) && old(freeblock) + SizeCost(size + |p|) - SizeCost(size) <= FSSIZE) &&
              (ok ==> freeblock == old(freeblock) + SizeCost(size + |p|) - SizeCost(size))
      ensures ok ==> Steady() && |inode| == |old(inode)| && Content(Abs(), i) == Content(old(Abs()), i) + p
      ensures ok ==> forall x: nat :: x < |inode| && x != i ==>
                inode[x] == old(inode)[x] && Content(Abs(), x) == Content(old(Abs()), x)
    {
      hide Wrote, Owned, Exact, Content, Upto, Unused, SizeCost, TooLarge;
      ghost var s, nb0, owner0 := Abs(), nb, owner;
      var size := inode[i].size;
      SizeFits(Sb(), s, owner, nb, i);
      SizesEqual(s, owner, nb);
      ok := AppendBlocks(i, p);
      if !ok {
        return;
      }
      WriteDone(Sb(), s, owner0, nb0, i, size, p, Abs(), owner, nb);
      WroteSizes(s, nb0, i, size, p, Abs(), nb);
      AppendOverlay(Content(s, i), p);
      SizesEqual(Abs(), owner, nb);
      ghost var s2 := Resized(Abs(), i, End(size, p));
      inode := inode[i := inode[i].(size := size + |p|)];
      dinode := dinode[i := inode[i]];
      assert Abs() == s2;
    }

    /** ialloc: the next inode, an empty file. `ok` is false past the inode area. */
    method Ialloc() returns (ok: bool, inum: nat)
      requires Steady() && freeinode <= |inode| && Blank()
      modifies this`freeinode, this`inode, this`dinode
      ensures Abs() == old(Abs()) && inum == old(freeinode) && ok == (inum < |inode|) &&
              freeinode == inum + if ok then 1 else 0
      ensures ok ==> Content(Abs(), inum) == []
    {
      inum, ok := freeinode, freeinode < |inode|;
      if ok {
        assert inode == inode[inum := Inode(0, NoAddrs())];
        inode, dinode := inode[inum := Inode(0, NoAddrs())], dinode[inum := Inode(0, NoAddrs())];
        freeinode := freeinode + 1;
      }
    }

    /** balloc: write the bitmap, all of whose blocks in use fit its first block. */
    method Balloc(used: nat) returns (ok: bool)
      modifies this`bitmap
      ensures ok == (used < BPB) && (ok ==> bitmap == Upto(used)) && (!ok ==> bitmap == old(bitmap))
    {
      hide PutByteBit;
      if used >= BPB {
        return false;
      }
      var buf, i := Zero(), 0;
      while i < used
        invariant i <= used && buf == Upto(i)
      {
        buf := buf[i / 8 := PutByteBit(buf[i / 8], i % 8, true)];
        i := i + 1;
      }
      bitmap := buf;
      ok := true;
    }

    /** The copy loop of main for one file, read in pieces of at most BSIZE bytes. */
    method CopyIn(i: nat, file: seq<byte>) returns (ok: bool)
      requires Steady() && i < |inode|
      modifies this`freeblock, this`data, this`inode, this`dinode, this`owner, this`nb
      ensures var size := old(inode)[i].size;
              ok == (!TooLarge(size + |file|) && old(freeblock) + SizeCost(size + |file|) - SizeCost(size) <= FSSIZE) &&
              (ok ==> freeblock == old(freeblock) + SizeCost(size + |file|) - SizeCost(size))
      ensures ok ==> Steady() && |inode| == |old(inode)| && Content(Abs(), i) == Content(old(Abs()), i) + file
      ensures ok ==> forall x: nat :: x < |inode| && x != i ==>
              inode[x] == old(inode)[x] && Content(Abs(), x) == Content(old(Abs()), x)
    {
      hide Owned, Exact, Content, Upto, Unused, Counted, SizeCost;
      ghost var s, size := Abs(), inode[i].size;
      var at := 0;
      ok := true;
      assert file[..0] == [];
      SizeFits(Sb(), s, owner, nb, i);
      while at < |file|
        invariant at <= |file| && Steady() && |inode| == |s.inode| && Content(Abs(), i) == Content(s, i) + file[..at]
        invariant inode[i].size == size + at && !TooLarge(size + at) &&
                  freeblock == old(freeblock) + SizeCost(size + at) - SizeCost(size)
        invariant forall x: nat :: x < |inode| && x != i ==>
                  inode[x] == s.inode[x] && Content(Abs(), x) == Content(s, x)
      {
        var cc := if |file| - at < BSIZE then |file| - at else BSIZE;
        SizeCostGrows(size + at + cc, size + |file|);
        ContentSize(Abs(), i);
        ok := Iappend(i, file[at..at + cc]);
        if !ok {
          return;
        }
        ContentSize(Abs(), i);
        assert file[..at] + file[at..at + cc] == file[..at + cc];
        at := at + cc;
      }
      assert file[..at] == file;
    }

    ghost predicate Blank()
      reads this
    {
      forall x: nat :: freeinode <= x < |inode| ==> inode[x] == Inode(0, NoAddrs())
    }

    /** One file of main's loop: an inode, a directory entry, then its bytes. */
    method AddFile(entry: seq<byte>, file: seq<byte>) returns (ok: bool, ghost inum: nat)
      requires Steady() && ROOTINO < freeinode <= |inode| && Blank()
      modifies this`freeblock, this`freeinode, this`data, this`inode, this`dinode, this`owner, this`nb
      ensures var root := old(inode)[ROOTINO].size;
              ok == (old(freeinode) < |old(inode)| && Room(old(freeblock), root, |entry|, [file])) &&
              (ok ==> freeblock == old(freeblock) + SizeCost(root + |entry|) - SizeCost(root) + SizeCost(|file|))
      ensures ok ==>
                Steady() && |inode| == |old(inode)| && inum == old(freeinode) < |inode| && freeinode == inum + 1 &&
                Blank()
      ensures ok ==> Content(Abs(), ROOTINO) == Content(old(Abs()), ROOTINO) + entry && Content(Abs(), inum) == file
      ensures ok ==> forall x: nat :: x < |inode| && x != ROOTINO && x != inum ==>
              Content(Abs(), x) == Content(old(Abs()), x)
    {
      hide Owned, Exact, Content, Upto, Unused, Counted, SizeCost, FilesCost, Room;
      OneCost(file);
      RoomOne(freeblock, inode[ROOTINO].size, |entry|, file);
      inum := freeinode;
      var node;
      ok, node := Ialloc();
      if !ok {
        return;
      }
      SizeCostGrows(inode[ROOTINO].size, inode[ROOTINO].size + |entry|);
      ok := Iappend(ROOTINO, entry);
      if !ok {
        return;
      }
      ok := CopyIn(node, file);
    }

    /** The file loop of main. */
    method AddFiles(entries: seq<seq<byte>>, files: seq<seq<byte>>) returns (ok: bool)
      requires Steady() && freeinode == ROOTINO + 1 <= |inode| && Blank() && |entries| == |files|
      modifies this`freeblock, this`freeinode, this`data, this`inode, this`dinode, this`owner, this`nb
      ensures ok == (ROOTINO + |files| < |old(inode)| &&
                     Room(old(freeblock), old(inode)[ROOTINO].size, |Joined(entries)|, files))
      ensures ok ==> Steady() && |inode| == |old(inode)| && ROOTINO + |files| < |inode|
      ensures ok ==> Content(Abs(), ROOTINO) == Content(old(Abs()), ROOTINO) + Joined(entries)
      ensures ok ==> forall x: nat :: ROOTINO < x <= ROOTINO + |files| ==> Content(Abs(), x) == files[x - ROOTINO - 1]
    {
      hide Owned, Exact, Content, Upto, Unused, Counted, Blank, Joined, SizeCost, FilesCost, Room, RoomFor;
      ghost var s, root := Abs(), inode[ROOTINO].size;
      var k := 0;
      ok := true;
      JoinedNone(entries, Content(s, ROOTINO));
      SizeFits(Sb(), s, owner, nb, ROOTINO);
      RoomStart(freeblock, root, entries, files);
      while k < |files|
        invariant k <= |files| && freeinode == ROOTINO + 1 + k <= |inode| == |s.inode| && Steady() && Blank() &&
                  freeblock <= BPB
        invariant Content(Abs(), ROOTINO) == Content(s, ROOTINO) + Joined(entries[..k])
        invariant forall x: nat :: ROOTINO < x < freeinode ==> Content(Abs(), x) == files[x - ROOTINO - 1]
        invariant inode[ROOTINO].size == root + |Joined(entries[..k])| &&
                  RoomFor(old(freeblock), root, entries, files, k, freeblock)
      {
        ghost var inum;
        JoinedPrefix(entries, k);
        RoomNext(old(freeblock), root, entries, files, k, freeblock);
        ok, inum := AddFile(entries[k], files[k]);
        if !ok {
          return;
        }
        JoinedOne(entries, k);
        ContentSize(Abs(), ROOTINO);
        k := k + 1;
      }
      assert entries[..k] == entries && files[..k] == files;
      RoomEnd(old(freeblock), root, entries, files, freeblock);
    }

    /** The root directory with its first two entries. */
    method MakeRoot(dot: seq<byte>, dotdot: seq<byte>) returns (ok: bool)
      requires Steady() && freeinode == ROOTINO && |inode| == NINODES && Blank() && |dot| == |dotdot| == DIRENT
      modifies this`freeblock, this`freeinode, this`data, this`inode, this`dinode, this`owner, this`nb
      ensures ok == (old(freeblock) + 1 <= FSSIZE) && (ok ==> freeblock == old(freeblock) + 1)
      ensures ok ==> Steady() && Blank() && freeinode == ROOTINO + 1 && |inode| == NINODES
      ensures ok ==> Content(Abs(), ROOTINO) == dot + dotdot && inode[ROOTINO].size == 2 * DIRENT
    {
      hide Owned, Exact, Content, Upto, Unused, Counted, SizeCost;
      DirectoryCosts(0);
      var root;
      ok, root := Ialloc();
      if !ok {
        return;
      }
      ContentSize(Abs(), ROOTINO);
      ok := Iappend(ROOTINO, dot);
      if !ok {
        return;
      }
      ContentSize(Abs(), ROOTINO);
      ok := Iappend(ROOTINO, dotdot);
      if !ok {
        return;
      }
      ContentSize(Abs(), ROOTINO);
      assert [] + dot + dotdot == dot + dotdot;
    }

    /** main: the image holds the files given, and it is consistent exactly when the directory did not end at a block
        boundary. Entries are the directory records as bytes, those of "." and ".." first. */
    method Build(dot: seq<byte>, dotdot: seq<byte>, entries: seq<seq<byte>>, files: seq<seq<byte>>) returns (ok: bool)
      requires Steady() && freeinode == ROOTINO && |inode| == NINODES && Blank()
      requires |entries| == |files| && |dot| == |dotdot| == DIRENT && forall e :: e in entries ==> |e| == DIRENT
      modifies this
      ensures ok == (ROOTINO + |files| < NINODES && Room(old(freeblock), 0, (|files| + 2) * DIRENT, files))
      ensures ok ==> freeblock <= BPB && |inode| == NINODES && |files| + 1 < NINODES && bitmap == Upto(freeblock)
      ensures ok ==> forall x: nat :: ROOTINO < x <= ROOTINO + |files| ==> Content(Abs(), x) == files[x - ROOTINO - 1]
      ensures ok ==> dot + dotdot + Joined(entries) <= Content(Abs(), ROOTINO)
      ensures ok ==> (Consistent(Sb(), Abs(), owner) <==> |files| % 32 != 30)
    {
      hide Owned, Exact, Content, Upto, Unused, Counted, Consistent, Joined, Rounded, SizeCost, FilesCost, Room,
        TooLarge;
      DirectoryCosts(|files|);
      RoomRoot(freeblock, files);
      ok := MakeRoot(dot, dotdot);
      if !ok {
        return;
      }
      JoinedLength(entries);
      ok := AddFiles(entries, files);
      if !ok {
        return;
      }
      BuildDone(Abs(), owner, nb, dot, dotdot, entries);
      RoundedSizes(Abs(), ROOTINO);
      FixRoot();
      ok := Balloc(freeblock);
    }

    /** The size of the root directory goes up to the next block boundary. */
    method FixRoot()
      requires freeblock <= BPB && ROOTINO < |inode| == |dinode|
      modifies this`inode, this`dinode
      ensures Abs() == Rounded(old(Abs()), ROOTINO)
    {
      var off := (inode[ROOTINO].size / BSIZE + 1) * BSIZE;
      inode := inode[ROOTINO := inode[ROOTINO].(size := off)];
      dinode := dinode[ROOTINO := inode[ROOTINO]];
    }
  }

  /** Thirty files, empty even, and the image is not consistent. */
  method MisalignedImage(entry: seq<byte>) returns (im: Image)
    requires |entry| == DIRENT
    ensures fresh(im) && im.freeblock <= BPB && !Consistent(Sb(), im.Abs(), im.owner)
  {
    hide Owned, Exact, Content, Upto, Unused, Counted, Consistent, Joined;
    im := new Image();
    var entries, files := seq(30, i => entry), seq(30, i => []);
    EmptyFilesCost(files);
    DirectoryCosts(30);
    assert SizeCost(32 * DIRENT) == 1;
    var ok := im.Build(entry, entry, entries, files);
  }
}
