/** Files as byte sequences: what one block-sized write does to every byte, and how such writes add up. */
module FsBytes {
  import opened Basics
  import opened Blocks
  import opened FsModel

  /** Byte p of file x after `piece` went to file i at offset off: fresh blocks start as zeros. */
  function NewByte(s: Fs, nb: seq<nat>, i: nat, off: nat, piece: seq<byte>, x: nat, p: nat): byte
    requires x < |s.inode| == |nb|
  {
    if x == i && off <= p < off + |piece| then piece[p - off]
    else if p / BSIZE < nb[x] then ByteAt(s, x, p)
    else 0
  }

  /** Allocated blocks of a file that had n after len bytes were written at offset off. */
  function Count(n: nat, off: nat, len: nat): nat {
    if len > 0 && BlocksFor(off + len) > n then BlocksFor(off + len) else n
  }

  /** `piece` has been written to file i at offset off, and nothing else has changed but the blocks this took. */
  ghost predicate Wrote(s: Fs, nb: seq<nat>, i: nat, off: nat, piece: seq<byte>, s': Fs, nb': seq<nat>) {
    |s.inode| == |s'.inode| == |nb| == |nb'| && i < |nb| && s'.dinode == s.dinode &&
    (forall x: nat :: x < |nb| ==>
      s'.inode[x].size == s.inode[x].size && (x != i ==> s'.inode[x] == s.inode[x] && nb'[x] == nb[x])) &&
    nb'[i] == Count(nb[i], off, |piece|) && (nb'[i] == nb[i] ==> s'.inode == s.inode) &&
    forall x: nat, p: nat :: x < |nb| && p / BSIZE < nb'[x] ==> ByteAt(s', x, p) == NewByte(s, nb, i, off, piece, x, p)
  }

  lemma WroteNothing(s: Fs, nb: seq<nat>, i: nat, off: nat)
    requires |s.inode| == |nb| && i < |nb|
    ensures Wrote(s, nb, i, off, [], s, nb)
  {
  }

  /** Two writes, the second where the first ended, are one. */
  lemma WroteTrans(s: Fs, nb: seq<nat>, i: nat, off: nat, a: seq<byte>, s1: Fs, nb1: seq<nat>, b: seq<byte>, s2: Fs,
      nb2: seq<nat>)
    requires Wrote(s, nb, i, off, a, s1, nb1) && Wrote(s1, nb1, i, off + |a|, b, s2, nb2)
    ensures Wrote(s, nb, i, off, a + b, s2, nb2)
  {
  }

  /** The block with `piece` copied in at offset o. */
  function Spliced(d: Block, o: nat, piece: seq<byte>): Block
    requires o + |piece| <= BSIZE
  {
    d[..o] + piece + d[o + |piece|..]
  }

  /** One iteration of writei's loop: block bn found or made, then `piece` copied into it at off % BSIZE. */
  lemma PieceWrote(s: Fs, nb: seq<nat>, i: nat, off: nat, piece: seq<byte>, s1: Fs, nb1: seq<nat>, s2: Fs, d: Block)
    requires i < |s.inode| == |nb| && 0 < |piece| && off % BSIZE + |piece| <= BSIZE && off / BSIZE <= nb[i] &&
             off / BSIZE < MAXFILE
    requires Exact(s, nb) && InRange(s, nb) && Exact(s1, nb1) && InRange(s1, nb1) && FilesKept(s, s1, i)
    requires nb1 == (if off / BSIZE < nb[i] then nb else nb[i := off / BSIZE + 1]) &&
             (nb1 == nb ==> s1.inode == s.inode)
    requires off / BSIZE < nb[i] || FileBlock(s1, i, off / BSIZE) == Zero()
    requires d == Spliced(FileBlock(s1, i, off / BSIZE), off % BSIZE, piece) && OneBlock(s1, s2, i, off / BSIZE, d)
    ensures Wrote(s, nb, i, off, piece, s2, nb1)
  {
    var bn := off / BSIZE;
    assert BlocksFor(off + |piece|) == bn + 1;
    forall x: nat, p: nat | x < |nb| && p / BSIZE < nb1[x]
      ensures ByteAt(s2, x, p) == NewByte(s, nb, i, off, piece, x, p)
    {
      PieceByte(s, nb, i, off, piece, s1, nb1, s2, d, x, p);
    }
  }

  /** Allocated file blocks are blocks of the disk. */
  ghost predicate InRange(s: Fs, nb: seq<nat>)
    requires |nb| == |s.inode|
  {
    forall x: nat, k: nat :: x < |nb| && k < nb[x] && k < MAXFILE ==> 0 < Ref(s, x, SlotOf(k)) < |s.data|
  }

  lemma PieceByte(s: Fs, nb: seq<nat>, i: nat, off: nat, piece: seq<byte>, s1: Fs, nb1: seq<nat>, s2: Fs, d: Block,
      x: nat, p: nat)
    requires i < |s.inode| == |nb| && 0 < |piece| && off % BSIZE + |piece| <= BSIZE && off / BSIZE <= nb[i] &&
             off / BSIZE < MAXFILE
    requires Exact(s, nb) && InRange(s, nb) && Exact(s1, nb1) && InRange(s1, nb1) && FilesKept(s, s1, i)
    requires nb1 == (if off / BSIZE < nb[i] then nb else nb[i := off / BSIZE + 1])
    requires off / BSIZE < nb[i] || FileBlock(s1, i, off / BSIZE) == Zero()
    requires d == Spliced(FileBlock(s1, i, off / BSIZE), off % BSIZE, piece) && OneBlock(s1, s2, i, off / BSIZE, d)
    requires x < |nb| && p / BSIZE < nb1[x]
    ensures ByteAt(s2, x, p) == NewByte(s, nb, i, off, piece, x, p)
  {
    hide Ref;
    var bn, k := off / BSIZE, p / BSIZE;
    assert ExactFor(s1, x, nb1[x]);
    assert 0 < Ref(s1, x, SlotOf(k)) < |s1.data|;
    if k < nb[x] {
      assert ExactFor(s, x, nb[x]);
      assert SameBlock(s, s1, x, k);
      KeptByte(s, s1, x, p);
    }
    if x == i && k == bn {
      assert ByteAt(s2, x, p) == d[p % BSIZE];
      assert off <= p < off + |piece| <==> off % BSIZE <= p % BSIZE < off % BSIZE + |piece|;
      assert ByteAt(s1, x, p) == FileBlock(s1, i, bn)[p % BSIZE];
    } else {
      assert SameBlock(s1, s2, x, k);
      KeptByte(s1, s2, x, p);
    }
  }

  // ---------------------------------------------------------------- whole files

  ghost predicate Counted(s: Fs, nb: seq<nat>) {
    |nb| == |s.inode| && forall x: nat :: x < |nb| ==> nb[x] == BlocksFor(s.inode[x].size)
  }

  /** writei's last step: a longer file gets its new size, in memory and on disk. */
  function Resized(s: Fs, i: nat, end: nat): Fs
    requires i < |s.inode| && i < |s.dinode|
  {
    if end > s.inode[i].size then
      var ip := s.inode[i].(size := end);
      s.(inode := s.inode[i := ip], dinode := s.dinode[i := ip])
    else s
  }

  lemma ResizedRefs(s: Fs, i: nat, end: nat, x: nat, y: nat)
    requires i < |s.inode| && i < |s.dinode| && x < |s.inode| && y < SLOTS
    ensures Ref(Resized(s, i, end), x, y) == Ref(s, x, y)
  {
  }

  lemma ResizedOwned(sb: Super, s: Fs, owner: Owner, nb: seq<nat>, i: nat, end: nat)
    requires Owned(sb, s, owner) && Exact(s, nb) && i < |s.inode|
    ensures Owned(sb, Resized(s, i, end), owner) && Exact(Resized(s, i, end), nb)
  {
    var s' := Resized(s, i, end);
    forall x: nat, y: nat | x < |s'.inode| && y < SLOTS
      ensures SlotOwned(s', owner, x, y)
    {
      ResizedRefs(s, i, end, x, y);
      assert SlotOwned(s, owner, x, y);
    }
    forall b | b in owner
      ensures BlockOwned(sb, s', owner, b)
    {
      assert BlockOwned(sb, s, owner, b);
      ResizedRefs(s, i, end, owner[b].0, owner[b].1);
    }
    forall x: nat | x < |nb|
      ensures ExactFor(s', x, nb[x])
    {
      assert ExactFor(s, x, nb[x]);
      ResizedExact(s, i, end, x, nb[x]);
    }
  }

  lemma ResizedExact(s: Fs, i: nat, end: nat, x: nat, n: nat)
    requires i < |s.inode| && i < |s.dinode| && x < |s.inode| && ExactFor(s, x, n)
    ensures ExactFor(Resized(s, i, end), x, n)
  {
  }

  /** Writing `src` over file i at an offset inside it or at its end overlays its contents, leaves every other file's
      alone, and keeps allocation exact; an inode that changed has been written through. */
  lemma WriteDone(sb: Super, s: Fs, owner: Owner, nb: seq<nat>, i: nat, off: nat, src: seq<byte>, s1: Fs,
      owner1: Owner, nb1: seq<nat>)
    requires Owned(sb, s, owner) && Counted(s, nb) && s.inode == s.dinode && i < |nb| && off <= s.inode[i].size
    requires Wrote(s, nb, i, off, src, s1, nb1) && Owned(sb, s1, owner1) && Exact(s1, nb1)
    ensures var s2 := Resized(s1, i, End(off, src));
            Consistent(sb, s2, owner1) && Counted(s2, nb1) && Exact(s2, nb1) && |s2.inode| == |s.inode| &&
            Content(s2, i) == Overlay(Content(s, i), off, src) &&
            forall x: nat :: x < |s.inode| && x != i ==> s2.inode[x] == s.inode[x] && Content(s2, x) == Content(s, x)
  {
    WriteCounted(s, nb, i, off, src, s1, nb1);
    hide Owned, Exact, Content, Overlay;
    var s2 := Resized(s1, i, End(off, src));
    ResizedOwned(sb, s1, owner1, nb1, i, End(off, src));
    CountedExact(sb, s2, owner1, nb1);
    WriteContent(s, nb, i, off, src, s1, nb1);
    forall x: nat | x < |s.inode| && x != i
      ensures s2.inode[x] == s.inode[x] && Content(s2, x) == Content(s, x)
    {
      OtherContent(s, nb, i, off, src, s1, nb1, x);
    }
  }

  function End(off: nat, src: seq<byte>): nat {
    if src == [] then 0 else off + |src|
  }

  lemma WriteCounted(s: Fs, nb: seq<nat>, i: nat, off: nat, src: seq<byte>, s1: Fs, nb1: seq<nat>)
    requires Counted(s, nb) && s.inode == s.dinode && i < |nb| && off <= s.inode[i].size &&
             Wrote(s, nb, i, off, src, s1, nb1)
    ensures Counted(Resized(s1, i, End(off, src)), nb1) &&
            Resized(s1, i, End(off, src)).inode == Resized(s1, i, End(off, src)).dinode
  {
  }

  lemma WriteByte(s: Fs, nb: seq<nat>, i: nat, off: nat, src: seq<byte>, s1: Fs, nb1: seq<nat>, x: nat, p: nat)
    requires Counted(s, nb) && s.inode == s.dinode && i < |nb| && off <= s.inode[i].size &&
             Wrote(s, nb, i, off, src, s1, nb1)
    requires x < |nb| && p < Resized(s1, i, End(off, src)).inode[x].size
    ensures ByteAt(Resized(s1, i, End(off, src)), x, p) == NewByte(s, nb, i, off, src, x, p)
  {
  }

  lemma WriteContent(s: Fs, nb: seq<nat>, i: nat, off: nat, src: seq<byte>, s1: Fs, nb1: seq<nat>)
    requires Counted(s, nb) && s.inode == s.dinode && i < |nb| && off <= s.inode[i].size &&
             Wrote(s, nb, i, off, src, s1, nb1)
    ensures Content(Resized(s1, i, End(off, src)), i) == Overlay(Content(s, i), off, src)
  {
    hide ByteAt;
    var c := Content(Resized(s1, i, End(off, src)), i);
    forall p: nat | p < |c|
      ensures c[p] == Overlay(Content(s, i), off, src)[p]
    {
      WriteByte(s, nb, i, off, src, s1, nb1, i, p);
    }
  }

  lemma OtherContent(s: Fs, nb: seq<nat>, i: nat, off: nat, src: seq<byte>, s1: Fs, nb1: seq<nat>, x: nat)
    requires Counted(s, nb) && s.inode == s.dinode && i < |nb| && off <= s.inode[i].size &&
             Wrote(s, nb, i, off, src, s1, nb1)
    requires x < |nb| && x != i
    ensures Resized(s1, i, End(off, src)).inode[x] == s.inode[x] &&
            Content(Resized(s1, i, End(off, src)), x) == Content(s, x)
  {
    hide ByteAt;
    var c := Content(Resized(s1, i, End(off, src)), x);
    forall p: nat | p < |c|
      ensures c[p] == Content(s, x)[p]
    {
      WriteByte(s, nb, i, off, src, s1, nb1, x, p);
    }
  }

  lemma CountedExact(sb: Super, s: Fs, owner: Owner, nb: seq<nat>)
    requires Owned(sb, s, owner) && Exact(s, nb) && Counted(s, nb) && s.inode == s.dinode
    ensures Consistent(sb, s, owner)
  {
  }
}
