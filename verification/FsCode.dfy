/** The code of fs.c and file.c that allocates, maps, reads, writes and truncates. */
module FsCode {
  import opened Basics
  import opened Blocks
  import opened Bitmap
  import opened LogDisk
  import opened FsModel
  import opened FsBytes
  import opened FsTrunc

  const UINT: nat := 0x1_0000_0000
  const INT: nat := 0x8000_0000
  const CHUNK: nat := (LOGSIZE - 1 - 1 - 2) / 2 * 512 // most bytes filewrite gives to one writei

  function BBlock(sb: Super, b: nat): nat {
    b / BPB + sb.bmapstart
  }

  function IBlock(sb: Super, i: nat): nat {
    i / IPB + sb.inodestart
  }

  /** The bitmap and the inodes on disk: 4096 bits or 8 inodes to a block, from bmapstart and inodestart on. */
  lemma BlockNumbers(sb: Super, k: nat, j: nat)
    ensures j < 4096 ==> BBlock(sb, 4096 * k + j) == sb.bmapstart + k
    ensures j < 8 ==> IBlock(sb, 8 * k + j) == sb.inodestart + k
  {
    assert j < 4096 ==> (4096 * k + j) / 4096 == k;
    assert j < 8 ==> (8 * k + j) / 8 == k;
  }

  /** Every block of the disk that differs between s and s' is one of these: bitmap blocks, data and indirect blocks,
      and the blocks the inodes on disk are in. */
  ghost predicate AllLogged(sb: Super, s: Fs, s': Fs, logged: set<nat>) {
    |s'.bmap| == |s.bmap| && |s'.data| == |s.data| && |s'.dinode| == |s.dinode| &&
    (forall k: nat :: k < |s.bmap| && s'.bmap[k] != s.bmap[k] ==> BBlock(sb, k * BPB) in logged) &&
    (forall b: nat :: b < |s.data| && s'.data[b] != s.data[b] ==> b in logged) &&
    forall x: nat :: x < |s.dinode| && s'.dinode[x] != s.dinode[x] ==> IBlock(sb, x) in logged
  }

  lemma LoggedTrans(sb: Super, s: Fs, s1: Fs, s2: Fs, log1: set<nat>, log2: set<nat>)
    requires AllLogged(sb, s, s1, log1) && AllLogged(sb, s1, s2, log2) && log1 <= log2
    ensures AllLogged(sb, s, s2, log2)
  {
  }

  /** So a block marked in use or free that was not before has its bitmap block among them. */
  lemma BitLogged(sb: Super, s: Fs, s': Fs, logged: set<nat>, b: nat)
    requires AllLogged(sb, s, s', logged) && b / BPB < |s.bmap| && Bit(s'.bmap, b) != Bit(s.bmap, b)
    ensures BBlock(sb, b) in logged
  {
    assert s'.bmap[b / BPB] != s.bmap[b / BPB];
    BBlockOf(sb, b);
  }

  lemma BBlockOf(sb: Super, b: nat)
    ensures BBlock(sb, b / BPB * BPB) == BBlock(sb, b)
  {
  }

  /** One bit of the bitmap, and the block it stands for if that is zeroed. */
  lemma BitSetLogged(sb: Super, s: Fs, b: nat, on: bool, log: set<nat>)
    requires b / BPB < |s.bmap| && BBlock(sb, b) in log
    ensures AllLogged(sb, s, s.(bmap := WithBit(s.bmap, b, on)), log)
    ensures b < |s.data| && b in log && on ==> AllLogged(sb, s, Allocated(s, b), log)
  {
    hide PutByteBit;
    BBlockOf(sb, b);
  }

  lemma DataLogged(sb: Super, s: Fs, b: nat, d: Block, log: set<nat>)
    requires b < |s.data| && b in log
    ensures AllLogged(sb, s, s.(data := s.data[b := d]), log)
  {
  }

  lemma FreedLogged(sb: Super, s: Fs, bmap: seq<Block>, b: nat, log: set<nat>)
    requires b / BPB < |bmap| && AllLogged(sb, s, s.(bmap := bmap), log)
    ensures AllLogged(sb, s, s.(bmap := WithBit(bmap, b, false)), log + {BBlock(sb, b)})
  {
    hide WithBit, AllLogged;
    BitSetLogged(sb, s.(bmap := bmap), b, false, log + {BBlock(sb, b)});
    LoggedTrans(sb, s, s.(bmap := bmap), s.(bmap := WithBit(bmap, b, false)), log, log + {BBlock(sb, b)});
  }

  /** The inodes in memory are not on disk. */
  lemma InodeLoggedNone(sb: Super, s: Fs, s': Fs, inode: seq<Inode>, log: set<nat>)
    requires AllLogged(sb, s, s', log)
    ensures AllLogged(sb, s, s'.(inode := inode), log) && AllLogged(sb, s.(inode := inode), s', log)
  {
  }

  lemma NothingLogged(sb: Super, s: Fs, log: set<nat>)
    ensures AllLogged(sb, s, s, log)
  {
  }

  lemma InodeLogged(sb: Super, s: Fs, i: nat, inode: seq<Inode>, ip: Inode, log: set<nat>)
    requires i < |s.dinode| && IBlock(sb, i) in log
    ensures AllLogged(sb, s, s.(inode := inode, dinode := s.dinode[i := ip]), log)
  {
  }

  /** writei returns -1: past the end, wrapping the 32-bit sum, or too large a file. */
  predicate Refused(size: nat, off: nat, n: nat) {
    off > size || off + n >= UINT || off + n > MAXFILE * BSIZE
  }

  /** File blocks that n bytes at offset off touch. */
  function Touched(off: nat, n: nat): nat {
    if n == 0 then 0 else BlocksFor(off + n) - off / BSIZE
  }

  /** Disk blocks allocated when a file goes from n to n' blocks: the new ones, and the indirect block if it crosses
      NDIRECT. */
  function Made(n: nat, n': nat): nat
    requires n <= n'
  {
    n' - n + if n <= NDIRECT < n' then 1 else 0
  }

  /** Bitmap blocks of a disk. */
  function Bitmaps(sb: Super): nat {
    (sb.size + BPB - 1) / BPB
  }

  /** Blocks one writei can dirty on a disk with so many bitmap blocks: data, a bitmap block for each allocation unless
      they share one, the indirect block and the inode's block. */
  function Dirtied(size: nat, off: nat, n: nat, bitmaps: nat): nat {
    var made := Made(BlocksFor(size), Count(BlocksFor(size), off, n));
    Touched(off, n) + (if made < bitmaps then made else bitmaps) + 2
  }

  /** Bytes of an n-byte write done when the chunk that starts at `done` is. */
  function Chunk(done: nat, n: nat): nat {
    if done + CHUNK < n then done + CHUNK else n
  }

  lemma NextChunk(i: nat, n: nat)
    requires i % CHUNK == 0 && i < n
    ensures i + CHUNK < n ==> (i + CHUNK) % CHUNK == 0
  {
  }

  /** Why a write of n bytes stops early: the next chunk would start past the end of the file or make it too large. */
  predicate Stopped(size: nat, off: nat, n: nat, done: nat) {
    done % CHUNK == 0 && done < n && (off > size || off + Chunk(done, n) > MAXFILE * BSIZE)
  }

  /** A chunk never dirties more blocks than the log holds: a misaligned first block exists already. */
  lemma ChunkFits(size: nat, off: nat, n: nat, bitmaps: nat)
    requires off <= size && n <= CHUNK
    ensures Dirtied(size, off, n, bitmaps) <= LOGSIZE
  {
  }

  /** No writei of n bytes, whatever the file's size and the offset, comes to more than k blocks by this count. */
  ghost predicate Within(n: nat, k: nat, bitmaps: nat) {
    forall size: nat, off: nat :: off <= size && off + n <= MAXFILE * BSIZE ==> Dirtied(size, off, n, bitmaps) <= k
  }

  /** By this count CHUNK is the most filewrite can give to one transaction on any disk: a byte more at the end of a
      file of NDIRECT blocks comes to one block more than the log holds. */
  lemma ChunkLargest(n: nat)
    requires n <= MAXFILE * BSIZE
    ensures (forall bitmaps: nat :: Within(n, LOGSIZE, bitmaps)) <==> n <= CHUNK
    ensures Dirtied(11 * BSIZE + 1, 11 * BSIZE + 1, CHUNK, LOGSIZE) == LOGSIZE
    ensures Dirtied(12 * BSIZE, 12 * BSIZE, CHUNK + 1, LOGSIZE) == LOGSIZE + 1
  {
    if n <= CHUNK {
      forall bitmaps: nat, size: nat, off: nat | off <= size && off + n <= MAXFILE * BSIZE
        ensures Dirtied(size, off, n, bitmaps) <= LOGSIZE
      {
        ChunkFits(size, off, n, bitmaps);
      }
    } else {
      assert Dirtied(0, 0, n, LOGSIZE) > LOGSIZE;
      assert !Within(n, LOGSIZE, LOGSIZE);
    }
  }

  /** By this count a chunk keeps to the MAXOPBLOCKS that begin_op reserves for it on any disk only up to three blocks'
      worth of bytes, and on one with a single bitmap block, as mkfs makes, up to six and a byte. */
  lemma ReservedIff(n: nat)
    requires n <= MAXFILE * BSIZE
    ensures (forall bitmaps: nat :: Within(n, MAXOPBLOCKS, bitmaps)) <==> n <= 3 * BSIZE
    ensures Within(n, MAXOPBLOCKS, 1) <==> n <= 6 * BSIZE + 1
  {
    if n <= 3 * BSIZE {
      forall bitmaps: nat, size: nat, off: nat | off <= size && off + n <= MAXFILE * BSIZE
        ensures Dirtied(size, off, n, bitmaps) <= MAXOPBLOCKS
      {
        SmallFits(size, off, n, bitmaps);
      }
    } else {
      var at := if n <= 4 * BSIZE then 12 * BSIZE else 0;
      assert Dirtied(at, at, n, MAXOPBLOCKS) > MAXOPBLOCKS;
      assert !Within(n, MAXOPBLOCKS, MAXOPBLOCKS);
    }
    ReservedIffOne(n);
  }

  lemma ReservedIffOne(n: nat)
    requires n <= MAXFILE * BSIZE
    ensures Within(n, MAXOPBLOCKS, 1) <==> n <= 6 * BSIZE + 1
  {
    if n <= 6 * BSIZE + 1 {
      forall size: nat, off: nat | off <= size && off + n <= MAXFILE * BSIZE
        ensures Dirtied(size, off, n, 1) <= MAXOPBLOCKS
      {
        assert Touched(off, n) <= 7;
      }
    } else {
      var at := if n <= 7 * BSIZE then BSIZE - 1 else 0;
      assert Dirtied(at, at, n, 1) > MAXOPBLOCKS;
    }
  }

  lemma SmallFits(size: nat, off: nat, n: nat, bitmaps: nat)
    requires off <= size && n <= 3 * BSIZE
    ensures Dirtied(size, off, n, bitmaps) <= MAXOPBLOCKS
  {
  }

  /** A full chunk touches more blocks than MAXOPBLOCKS by its data alone. */
  lemma ChunkTouches(off: nat)
    ensures Touched(off, CHUNK) > MAXOPBLOCKS
  {
  }

  /** The first n bytes of src have gone to file i at offset off; no other file has changed. */
  ghost predicate FileWritten(s: Fs, s': Fs, i: nat, off: nat, src: seq<byte>, n: nat) {
    i < |s.inode| == |s'.inode| && n <= |src| &&
    (if off <= s.inode[i].size then Content(s', i) == Overlay(Content(s, i), off, src[..n])
        else n == 0 && Content(s', i) == Content(s, i)) &&
    forall x: nat :: x < |s.inode| && x != i ==> s'.inode[x] == s.inode[x] && Content(s', x) == Content(s, x)
  }

  lemma NothingWritten(s: Fs, i: nat, off: nat, src: seq<byte>)
    requires i < |s.inode|
    ensures FileWritten(s, s, i, off, src, 0)
  {
  }

  lemma WrittenMore(s: Fs, s1: Fs, s2: Fs, i: nat, off: nat, src: seq<byte>, n: nat, m: nat)
    requires FileWritten(s, s1, i, off, src, n) && n + m <= |src| && |s2.inode| == |s1.inode|
    requires off + n <= s1.inode[i].size && Content(s2, i) == Overlay(Content(s1, i), off + n, src[n..n + m]) &&
             (n == 0 ==> off <= s.inode[i].size)
    requires forall x: nat :: x < |s1.inode| && x != i ==>
             s2.inode[x] == s1.inode[x] && Content(s2, x) == Content(s1, x)
    ensures FileWritten(s, s2, i, off, src, n + m)
  {
    OverlayTwice(Content(s, i), off, src[..n], src[n..n + m]);
    assert src[..n] + src[n..n + m] == src[..n + m];
  }

  lemma OverlayTwice(c: seq<byte>, off: nat, a: seq<byte>, b: seq<byte>)
    requires off <= |c|
    ensures off + |a| <= |Overlay(c, off, a)| && Overlay(Overlay(c, off, a), off + |a|, b) == Overlay(c, off, a + b)
  {
  }

  lemma WrittenSize(s: Fs, s1: Fs, i: nat, off: nat, src: seq<byte>, n: nat)
    requires FileWritten(s, s1, i, off, src, n)
    ensures off <= s.inode[i].size <==> off + n <= s1.inode[i].size
  {
  }

  lemma SizeFits(sb: Super, s: Fs, owner: Owner, nb: seq<nat>, i: nat)
    requires Owned(sb, s, owner) && Exact(s, nb) && Counted(s, nb) && i < |s.inode|
    ensures s.inode[i].size <= MAXFILE * BSIZE
  {
  }

  lemma EmptyCount(size: nat, off: nat)
    requires off <= size
    ensures off / BSIZE <= BlocksFor(size)
    ensures var n := BlocksFor(size); Count(n, off, 0) == n && Touched(off, 0) == 0 && Made(n, n) == 0
  {
  }

  lemma WroteNext(s: Fs, nb: seq<nat>, i: nat, off: nat, src: seq<byte>, tot: nat, m: nat, s1: Fs, nb1: seq<nat>,
      s2: Fs, nb2: seq<nat>)
    requires tot + m <= |src| && Wrote(s, nb, i, off, src[..tot], s1, nb1) &&
             Wrote(s1, nb1, i, off + tot, src[tot..tot + m], s2, nb2)
    ensures Wrote(s, nb, i, off, src[..tot + m], s2, nb2) && i < |s2.inode| == |nb2| &&
            nb2[i] == Count(nb1[i], off + tot, m)
  {
    WroteTrans(s, nb, i, off, src[..tot], s1, nb1, src[tot..tot + m], s2, nb2);
    assert src[..tot] + src[tot..tot + m] == src[..tot + m];
  }

  lemma LogNext(sb: Super, log: set<nat>, blocks: set<nat>, made: seq<nat>, ind: set<nat>, b: nat, more: seq<nat>,
      ind': set<nat>)
    requires ind <= ind'
    ensures log + blocks + BitmapBlocks(sb, made) + ind + {b} + BitmapBlocks(sb, more) + ind' <=
            log + (blocks + {b}) + BitmapBlocks(sb, made + more) + ind'
  {
  }

  lemma PieceCount(n0: nat, off: nat, tot: nat, m: nat, len: nat)
    requires off / BSIZE <= n0 && tot < len && (tot > 0 ==> (off + tot) % BSIZE == 0) && off + len <= MAXFILE * BSIZE
    requires m == if len - tot < BSIZE - (off + tot) % BSIZE then len - tot else BSIZE - (off + tot) % BSIZE
    ensures var n, bn := Count(n0, off, tot), (off + tot) / BSIZE;
            0 < m <= len - tot && (off + tot) % BSIZE + m <= BSIZE && bn <= n && bn < MAXFILE &&
            bn == off / BSIZE + Touched(off, tot) &&
            Touched(off, tot + m) == Touched(off, tot) + 1 &&
            var n' := Count(n, off + tot, m);
            n <= n' == Count(n0, off, tot + m) && n' == (if bn < n then n else bn + 1) &&
            Made(n0, n') == Made(n0, n) + if bn < n then 0 else if bn == NDIRECT then 2 else 1
    ensures tot + m < len ==> (off + tot + m) % BSIZE == 0
  {
  }

  lemma WroteSizes(s: Fs, nb: seq<nat>, i: nat, off: nat, piece: seq<byte>, s': Fs, nb': seq<nat>)
    requires Wrote(s, nb, i, off, piece, s', nb')
    ensures |s'.inode| == |s.inode| == |nb| == |nb'| && i < |nb| && nb'[i] == Count(nb[i], off, |piece|) &&
            s'.dinode == s.dinode
    ensures s'.inode[i].size == s.inode[i].size
  {
  }

  lemma {:induction false} BitmapFew(sb: Super, made: seq<nat>)
    ensures |BitmapBlocks(sb, made)| <= |made|
  {
    if made != [] {
      BitmapFew(sb, made[1..]);
      assert BitmapBlocks(sb, made) == BitmapBlocks(sb, made[1..]) + {BBlock(sb, made[0])} by {
        assert made == [made[0]] + made[1..];
      }
    }
  }

  lemma SteadySizes(sb: Super, s: Fs, owner: Owner, nb: seq<nat>)
    requires Owned(sb, s, owner) && Exact(s, nb)
    ensures |nb| == |s.inode| == |s.dinode|
  {
  }

  lemma InFile(sb: Super, s: Fs, owner: Owner, nb: seq<nat>, i: nat, p: nat)
    requires Owned(sb, s, owner) && Exact(s, nb) && Counted(s, nb) && i < |nb| && p < s.inode[i].size
    ensures p / BSIZE < nb[i] && p / BSIZE < MAXFILE
  {
  }

  lemma FoundSame(sb: Super, s: Fs, owner: Owner, nb: seq<nat>, i: nat, bn: nat, s': Fs, owner': Owner, b: nat,
      made: seq<nat>)
    requires i < |s.inode| == |nb| && bn < nb[i] && bn < MAXFILE && Mapped(sb, s, owner, nb, i, bn, s', owner', b, made)
    ensures s' == s && owner' == owner && made == [] && b == Ref(s, i, SlotOf(bn)) && b < |s.data|
  {
  }

  lemma Adjoining(c: seq<byte>, i: nat, j: nat, k: nat)
    requires i <= j <= k <= |c|
    ensures c[i..j] + c[j..k] == c[i..k]
  {
  }

  lemma ContentSize(s: Fs, i: nat)
    requires i < |s.inode|
    ensures |Content(s, i)| == s.inode[i].size
  {
  }

  lemma PieceRead(s: Fs, i: nat, p: nat, m: nat, b: nat)
    requires i < |s.inode| && p + m <= s.inode[i].size && p % BSIZE + m <= BSIZE && p / BSIZE < MAXFILE
    requires b == Ref(s, i, SlotOf(p / BSIZE)) && b < |s.data|
    ensures s.data[b][p % BSIZE..p % BSIZE + m] == Content(s, i)[p..p + m]
  {
    hide Ref;
    var read, want := s.data[b][p % BSIZE..p % BSIZE + m], Content(s, i)[p..p + m];
    forall t: nat | t < m
      ensures read[t] == want[t]
    {
      assert (p + t) / BSIZE == p / BSIZE && (p + t) % BSIZE == p % BSIZE + t;
    }
  }

  /** The first k addresses zeroed, the others as they were. */
  predicate Cleared(addrs: seq<nat>, addrs': seq<nat>, k: nat) {
    |addrs'| == |addrs| == NDIRECT + 1 && forall a: nat :: a <= NDIRECT ==> addrs'[a] == if a < k then 0 else addrs[a]
  }

  lemma ReleaseStart(sb: Super, s: Fs, owner: Owner, i: nat)
    requires Owned(sb, s, owner) && i < |s.inode|
    ensures Released(sb, owner, i, 0, s.bmap) && |s.inode[i].addrs| == NDIRECT + 1
  {
  }

  lemma ReleaseEntries(sb: Super, s: Fs, owner: Owner, i: nat, bmap: seq<Block>)
    requires Owned(sb, s, owner) && i < |s.inode| && s.inode[i].addrs[NDIRECT] == 0 &&
             Released(sb, owner, i, NDIRECT, bmap)
    ensures Released(sb, owner, i, SLOTS, bmap)
  {
  }

  /** There are only so many bitmap blocks. */
  lemma BitmapRange(sb: Super, made: seq<nat>)
    requires forall x :: x in made ==> x < sb.size
    ensures |BitmapBlocks(sb, made)| <= Bitmaps(sb)
  {
    forall y | y in BitmapBlocks(sb, made)
      ensures sb.bmapstart <= y < sb.bmapstart + Bitmaps(sb)
    {
      var x :| x in made && y == BBlock(sb, x);
      assert x / BPB < Bitmaps(sb);
    }
    RangeCard(BitmapBlocks(sb, made), sb.bmapstart, Bitmaps(sb));
  }

  lemma LogFew(sb: Super, blocks: set<nat>, made: seq<nat>, s: Fs, i: nat)
    requires i < |s.inode| && forall x :: x in made ==> x < sb.size
    ensures |blocks + BitmapBlocks(sb, made) + Indirect(s, i)| <=
            |blocks| + (if |made| < Bitmaps(sb) then |made| else Bitmaps(sb)) + 1
  {
    hide BitmapBlocks, Ref, Bitmaps;
    BitmapFew(sb, made);
    BitmapRange(sb, made);
    assert |blocks + BitmapBlocks(sb, made)| <= |blocks| + |BitmapBlocks(sb, made)|;
  }

  /** Blocks lo to hi of file i. */
  function DataOf(s: Fs, i: nat, lo: nat, hi: nat): set<nat>
    requires i < |s.inode| && hi <= MAXFILE
  {
    set k: nat | lo <= k < hi :: Ref(s, i, SlotOf(k))
  }

  /** The first n blocks of file i are where they were. */
  ghost predicate RefsKept(s: Fs, s': Fs, i: nat, n: nat) {
    i < |s.inode| && i < |s'.inode| && n <= MAXFILE &&
    forall k: nat :: k < n ==> Ref(s', i, SlotOf(k)) == Ref(s, i, SlotOf(k))
  }

  lemma DataNext(s: Fs, s': Fs, i: nat, lo: nat, hi: nat, n: nat, log: set<nat>, log': set<nat>)
    requires RefsKept(s, s', i, n) && hi <= n && hi < MAXFILE && DataOf(s, i, lo, hi) <= log <= log'
    requires Ref(s', i, SlotOf(hi)) in log'
    ensures DataOf(s', i, lo, hi + 1) <= log'
  {
    hide Ref;
    forall x | x in DataOf(s', i, lo, hi + 1)
      ensures x in log'
    {
      var k: nat :| lo <= k < hi + 1 && x == Ref(s', i, SlotOf(k));
      if k < hi {
        assert Ref(s, i, SlotOf(k)) in DataOf(s, i, lo, hi);
      }
    }
  }

  lemma DataNone(s: Fs, nb: seq<nat>, i: nat, off: nat)
    requires Exact(s, nb) && i < |s.inode| == |nb|
    ensures nb[i] <= MAXFILE && Touched(off, 0) == 0
    ensures off / BSIZE <= MAXFILE ==> DataOf(s, i, off / BSIZE, off / BSIZE) == {}
  {
    assert ExactFor(s, i, nb[i]);
  }

  /** No block of the disk is two blocks of a file. */
  lemma {:induction false} DataDistinct(sb: Super, s: Fs, owner: Owner, nb: seq<nat>, i: nat, lo: nat, hi: nat)
    requires Owned(sb, s, owner) && Exact(s, nb) && i < |s.inode| == |nb| && lo <= hi <= nb[i] && hi <= MAXFILE
    ensures |DataOf(s, i, lo, hi)| == hi - lo
    decreases hi
  {
    hide Ref;
    if lo < hi {
      DataDistinct(sb, s, owner, nb, i, lo, hi - 1);
      var x := Ref(s, i, SlotOf(hi - 1));
      forall k: nat | lo <= k < hi - 1
        ensures Ref(s, i, SlotOf(k)) != x
      {
        assert ExactFor(s, i, nb[i]);
        assert SlotOwned(s, owner, i, SlotOf(k)) && SlotOwned(s, owner, i, SlotOf(hi - 1));
      }
      assert DataOf(s, i, lo, hi) == DataOf(s, i, lo, hi - 1) + {x};
    } else {
      assert DataOf(s, i, lo, hi) == {};
    }
  }

  lemma MadeInRange(sb: Super, s: Fs, owner: Owner, nb: seq<nat>, i: nat, bn: nat, s': Fs, owner': Owner, b: nat,
      made: seq<nat>)
    requires Owned(sb, s, owner) && Exact(s, nb) && i < |nb| && bn <= nb[i] && bn < MAXFILE &&
             Mapped(sb, s, owner, nb, i, bn, s', owner', b, made)
    ensures RefsKept(s, s', i, nb[i]) && forall x :: x in made ==> x < sb.size
  {
    MappedMeans(sb, s, owner, nb, i, bn, s', owner', b, made);
    OwnedInRange(sb, s, owner, nb);
    assert ExactFor(s, i, nb[i]);
    forall k: nat | k < nb[i]
      ensures Ref(s', i, SlotOf(k)) == Ref(s, i, SlotOf(k))
    {
      assert SameBlock(s, s', i, k);
    }
    assert SlotOwned(s', owner', i, SlotOf(bn)) && SlotOwned(s', owner', i, NDIRECT);
  }

  /** Where writei's loop stands with log_write after tot bytes: it has logged the data blocks so far and whatever else
      it has changed, and nothing but data blocks, bitmap blocks of what it allocated and the indirect block. */
  ghost predicate Logging(sb: Super, s0: Fs, n0: nat, log0: set<nat>, i: nat, off: nat, tot: nat, s: Fs, n: nat,
      blocks: set<nat>, made: seq<nat>, logged: set<nat>) {
    i < |s.inode| && off / BSIZE + Touched(off, tot) <= n <= MAXFILE && n0 <= n &&
    log0 <= logged <= log0 + blocks + BitmapBlocks(sb, made) + Indirect(s, i) &&
    |blocks| <= Touched(off, tot) && |made| == Made(n0, n) && (forall x :: x in made ==> x < sb.size) &&
    DataOf(s, i, off / BSIZE, off / BSIZE + Touched(off, tot)) <= logged && AllLogged(sb, s0, s, logged)
  }

  lemma LoggingStart(sb: Super, s: Fs, nb: seq<nat>, log: set<nat>, i: nat, off: nat)
    requires Exact(s, nb) && i < |s.inode| == |nb| && off / BSIZE <= nb[i]
    ensures Logging(sb, s, nb[i], log, i, off, 0, s, nb[i], {}, [], log)
  {
    DataNone(s, nb, i, off);
  }

  lemma LoggingNext(sb: Super, s0: Fs, n0: nat, log0: set<nat>, i: nat, off: nat, tot: nat, m: nat, len: nat, s1: Fs,
      n1: nat, blocks: set<nat>, made: seq<nat>, log1: set<nat>, s2: Fs, n2: nat, b: nat, more: seq<nat>,
      log2: set<nat>)
    requires Logging(sb, s0, n0, log0, i, off, tot, s1, n1, blocks, made, log1) && n1 == Count(n0, off, tot)
    requires off / BSIZE <= n0 && tot < len && (tot > 0 ==> (off + tot) % BSIZE == 0) && off + len <= MAXFILE * BSIZE
    requires m == if len - tot < BSIZE - (off + tot) % BSIZE then len - tot else BSIZE - (off + tot) % BSIZE
    requires i < |s2.inode| && n2 == Count(n1, off + tot, m) && log1 <= log2 && AllLogged(sb, s1, s2, log2)
    requires log2 <= log1 + {b} + BitmapBlocks(sb, more) + Indirect(s2, i) && Indirect(s1, i) <= Indirect(s2, i)
    requires |more| == (if (off + tot) / BSIZE < n1 then 0 else if (off + tot) / BSIZE == NDIRECT then 2 else 1)
    requires (forall x :: x in more ==> x < sb.size) && RefsKept(s1, s2, i, n1) && (off + tot) / BSIZE < MAXFILE
    requires Ref(s2, i, SlotOf((off + tot) / BSIZE)) in log2
    ensures Logging(sb, s0, n0, log0, i, off, tot + m, s2, n2, blocks + {b}, made + more, log2)
  {
    hide Count, Touched, Made, Indirect, BitmapBlocks, Ref, SlotOf, DataOf, RefsKept, AllLogged;
    PieceCount(n0, off, tot, m, len);
    LoggedTrans(sb, s0, s1, s2, log1, log2);
    LogNext(sb, log0, blocks, made, Indirect(s1, i), b, more, Indirect(s2, i));
    DataNext(s1, s2, i, off / BSIZE, (off + tot) / BSIZE, n1, log1, log2);
  }

  lemma LoggingDone(sb: Super, s0: Fs, n0: nat, log0: set<nat>, i: nat, off: nat, tot: nat, s: Fs, owner: Owner,
      nb: seq<nat>, blocks: set<nat>, made: seq<nat>, logged: set<nat>)
    requires Owned(sb, s, owner) && Exact(s, nb) && i < |s.inode| == |nb|
    requires Logging(sb, s0, n0, log0, i, off, tot, s, nb[i], blocks, made, logged)
    ensures var log, m := blocks + BitmapBlocks(sb, made) + Indirect(s, i), Made(n0, nb[i]);
            log0 <= logged <= log0 + log && Touched(off, tot) <= |logged| && AllLogged(sb, s0, s, logged) &&
            |log| <= Touched(off, tot) + (if m < Bitmaps(sb) then m else Bitmaps(sb)) + 1
  {
    hide Touched, Made, Indirect, BitmapBlocks, Ref, SlotOf, DataOf, AllLogged, Owned, Exact, Bitmaps;
    DataDistinct(sb, s, owner, nb, i, off / BSIZE, off / BSIZE + Touched(off, tot));
    SubsetCard(DataOf(s, i, off / BSIZE, off / BSIZE + Touched(off, tot)), logged);
    LogFew(sb, blocks, made, s, i);
  }

  lemma WriteOneDone(sb: Super, s: Fs, owner: Owner, nb: seq<nat>, i: nat, off: nat, piece: seq<byte>, s1: Fs,
      owner1: Owner, nb1: seq<nat>, b: nat, made: seq<nat>)
    requires Owned(sb, s, owner) && Exact(s, nb) && i < |nb| && off / BSIZE <= nb[i] && off / BSIZE < MAXFILE
    requires 0 < |piece| && off % BSIZE + |piece| <= BSIZE
    requires Mapped(sb, s, owner, nb, i, off / BSIZE, s1, owner1, b, made) && Exact(s1, nb1)
    requires nb1 == if off / BSIZE < nb[i] then nb else nb[i := off / BSIZE + 1]
    ensures b < |s1.data| && i < |s1.inode|
    ensures var s2 := WithData(s1, b, Spliced(s1.data[b], off % BSIZE, piece));
            Owned(sb, s2, owner1) && Exact(s2, nb1) && Wrote(s, nb, i, off, piece, s2, nb1) &&
            Ref(s2, i, NDIRECT) == Ref(s1, i, NDIRECT) &&
            (Ref(s, i, NDIRECT) != 0 ==> Ref(s2, i, NDIRECT) == Ref(s, i, NDIRECT))
    ensures |made| == (if off / BSIZE < nb[i] then 0 else if off / BSIZE == NDIRECT then 2 else 1)
    ensures off / BSIZE >= NDIRECT ==> Ref(s1, i, NDIRECT) != 0
    ensures MapLog(sb, made, if off / BSIZE >= NDIRECT && made != [] then {Ref(s1, i, NDIRECT)}
              else {}) <= {b} + BitmapBlocks(sb, made) + Indirect(s1, i)
  {
    MappedMeans(sb, s, owner, nb, i, off / BSIZE, s1, owner1, b, made);
    hide Mapped, Wrote, Ref;
    var d := Spliced(s1.data[b], off % BSIZE, piece);
    DataOneBlock(sb, s1, owner1, i, off / BSIZE, d);
    OneBlockKeeps(sb, s1, owner1, nb1, i, off / BSIZE, d, WithData(s1, b, d));
    OwnedInRange(sb, s, owner, nb);
    OwnedInRange(sb, s1, owner1, nb1);
    PieceWrote(s, nb, i, off, piece, s1, nb1, WithData(s1, b, d), d);
  }

  /** Bitmap blocks holding the bits of the blocks in `made`. */
  function BitmapBlocks(sb: Super, made: seq<nat>): set<nat> {
    set x | x in made :: BBlock(sb, x)
  }

  /** The indirect block of file i, if it has one. */
  function Indirect(s: Fs, i: nat): set<nat>
    requires i < |s.inode|
  {
    if Ref(s, i, NDIRECT) != 0 then {Ref(s, i, NDIRECT)} else {}
  }

  lemma OwnedInRange(sb: Super, s: Fs, owner: Owner, nb: seq<nat>)
    requires Owned(sb, s, owner) && Exact(s, nb)
    ensures InRange(s, nb)
  {
    forall x: nat, k: nat | x < |nb| && k < nb[x] && k < MAXFILE
      ensures 0 < Ref(s, x, SlotOf(k)) < |s.data|
    {
      assert ExactFor(s, x, nb[x]);
      assert SlotOwned(s, owner, x, SlotOf(k));
    }
  }

  lemma SplicedRefs(sb: Super, s: Fs, owner: Owner, nb: seq<nat>, i: nat, bn: nat, s': Fs, owner': Owner, b: nat,
      made: seq<nat>, d: Block)
    requires Owned(sb, s, owner) && Exact(s, nb) && i < |nb| && bn <= nb[i] && bn < MAXFILE &&
             Mapped(sb, s, owner, nb, i, bn, s', owner', b, made)
    ensures b < |s'.data| && RefsKept(s, WithData(s', b, d), i, nb[i]) && Ref(WithData(s', b, d), i, SlotOf(bn)) == b
  {
    MappedMeans(sb, s, owner, nb, i, bn, s', owner', b, made);
    MadeInRange(sb, s, owner, nb, i, bn, s', owner', b, made);
    DataOneBlock(sb, s', owner', i, bn, d);
  }

  /** What WriteOne needs to know of bmap's result. */
  lemma MappedMeans(sb: Super, s: Fs, owner: Owner, nb: seq<nat>, i: nat, bn: nat, s': Fs, owner': Owner, b: nat,
      made: seq<nat>)
    requires Owned(sb, s, owner) && Exact(s, nb) && i < |nb| && bn <= nb[i] && bn < MAXFILE &&
             Mapped(sb, s, owner, nb, i, bn, s', owner', b, made)
    ensures Owned(sb, s', owner') && FilesKept(s, s', i) && b == Ref(s', i, SlotOf(bn)) && 0 < b < |s'.data|
    ensures if bn < nb[i] then s' == s && made == [] else FileBlock(s', i, bn) == Zero()
    ensures |made| == (if bn < nb[i] then 0 else if bn == NDIRECT then 2 else 1)
    ensures Ref(s, i, NDIRECT) != 0 ==> Ref(s', i, NDIRECT) == Ref(s, i, NDIRECT)
    ensures bn >= NDIRECT ==> Ref(s', i, NDIRECT) != 0
    ensures forall x :: x in made ==> x == b || (x == Ref(s', i, NDIRECT) && bn == NDIRECT)
  {
  }

  /** The state after the indirect block is at hand. */
  ghost predicate Loaded(sb: Super, s: Fs, owner: Owner, i: nat, ind: nat, s': Fs, owner': Owner, made: seq<nat>)
    requires WellSized(sb, s) && i < |s.inode|
  {
    if s.inode[i].addrs[NDIRECT] != 0 then s' == s && owner' == owner && made == []
    else IsFree(sb, s, ind) && s' == WithAddr(Allocated(s, ind), i, NDIRECT, ind) &&
         owner' == owner[ind := (i, NDIRECT)] && made == [ind]
  }

  /** The entry for block bn is empty exactly when the file ends just before it. */
  lemma LoadedEntry(sb: Super, s: Fs, owner: Owner, nb: seq<nat>, i: nat, bn: nat, ind: nat, s': Fs, owner': Owner,
      made: seq<nat>)
    requires Owned(sb, s, owner) && Exact(s, nb) && i < |nb| && NDIRECT <= bn <= nb[i] && bn < MAXFILE
    requires Loaded(sb, s, owner, i, ind, s', owner', made) && Owned(sb, s', owner')
    ensures Ref(s', i, bn + 1) == 0 <==> bn == nb[i]
    ensures made == if NDIRECT < nb[i] then [] else [ind]
    ensures bn < nb[i] ==> s' == s && owner' == owner
  {
    ExactMeans(s, nb, i, bn);
    if made != [] {
      AddrRefs(sb, s, owner, i, NDIRECT, ind, i, bn + 1);
    }
  }

  lemma LoadedMapped(sb: Super, s: Fs, owner: Owner, nb: seq<nat>, i: nat, bn: nat, ind: nat, s1: Fs, owner1: Owner,
      made: seq<nat>, b: nat)
    requires Owned(sb, s, owner) && Exact(s, nb) && i < |nb| && NDIRECT <= bn == nb[i] && bn < MAXFILE
    requires Loaded(sb, s, owner, i, ind, s1, owner1, made) && Owned(sb, s1, owner1) && IsFree(sb, s1, b)
    requires i < |s1.inode| && |s1.inode[i].addrs| == NDIRECT + 1 && 0 < ind == s1.inode[i].addrs[NDIRECT] < |s1.data|
    ensures var s2 := WithEntry(Allocated(s1, b), i, bn - NDIRECT, b);
            var owner2: Owner := owner1[b := (i, bn + 1)];
            Ref(s2, i, NDIRECT) == ind && Mapped(sb, s, owner, nb, i, bn, s2, owner2, b, made + [b]) &&
            Owned(sb, s2, owner2) && Exact(s2, nb[i := bn + 1])
  {
    hide Owned, Exact, Bit, WithBit, Mapped, FilesKept;
    ExactMeans(s, nb, i, bn);
    var s2 := WithEntry(Allocated(s1, b), i, bn - NDIRECT, b);
    if NDIRECT < nb[i] {
      EntryMapped(sb, s, owner, nb, i, b);
      assert made + [b] == [b];
    } else {
      BothMapped(sb, s, owner, nb, i, ind, b);
      assert made + [b] == [ind, b];
    }
    MappedExact(sb, s, owner, nb, i, bn, s2, owner1[b := (i, bn + 1)], b, made + [b]);
  }

  lemma MappedExact(sb: Super, s: Fs, owner: Owner, nb: seq<nat>, i: nat, bn: nat, s': Fs, owner': Owner, b: nat,
      made: seq<nat>)
    requires i < |s.inode| == |nb| && bn < MAXFILE && nb[i] <= bn &&
             Mapped(sb, s, owner, nb, i, bn, s', owner', b, made)
    ensures Owned(sb, s', owner') && Exact(s', nb[i := bn + 1])
  {
  }

  lemma BitBase(b: nat, bi: nat)
    requires b % BPB == 0 && bi < BPB
    ensures (b + bi) / BPB == b / BPB && (b + bi) % BPB == bi && (b + bi) % 8 == bi % 8
  {
  }

  /** What bmap gives to log_write: for each allocation its bitmap block and the zeroed block, and the indirect
      block. */
  function MapLog(sb: Super, made: seq<nat>, ind: set<nat>): set<nat> {
    ind + (set x | x in made) + (set x | x in made :: BBlock(sb, x))
  }

  lemma ExactMeans(s: Fs, nb: seq<nat>, i: nat, bn: nat)
    requires Exact(s, nb) && i < |nb| && bn <= nb[i] && bn < MAXFILE
    ensures |nb| == |s.inode| && (Ref(s, i, SlotOf(bn)) == 0 <==> bn == nb[i]) &&
            (Ref(s, i, NDIRECT) == 0 <==> nb[i] <= NDIRECT)
  {
  }

  lemma AddrOwned(sb: Super, s: Fs, owner: Owner, i: nat, ind: nat)
    requires Owned(sb, s, owner) && i < |s.inode| && IsFree(sb, s, ind) && s.inode[i].addrs[NDIRECT] == 0
    ensures Owned(sb, WithAddr(Allocated(s, ind), i, NDIRECT, ind), owner[ind := (i, NDIRECT)])
  {
    AddrGained(sb, s, owner, i, NDIRECT, ind);
    GainedOwned(sb, s, owner, i, NDIRECT, ind, WithAddr(Allocated(s, ind), i, NDIRECT, ind));
  }

  lemma IndirectInRange(sb: Super, s: Fs, owner: Owner, i: nat)
    requires Owned(sb, s, owner) && i < |s.inode| && s.inode[i].addrs[NDIRECT] != 0
    ensures |s.inode[i].addrs| == NDIRECT + 1 && s.inode[i].addrs[NDIRECT] < |s.data|
    ensures forall j: nat :: j < NINDIRECT ==>
            Ref(s, i, NDIRECT + 1 + j) == GetWord(s.data[s.inode[i].addrs[NDIRECT]], j)
  {
    assert SlotOwned(s, owner, i, NDIRECT);
    assert BlockOwned(sb, s, owner, s.inode[i].addrs[NDIRECT]);
  }

  lemma MapLogIs(sb: Super, made: seq<nat>, ind: nat)
    requires |made| == 1 || (|made| == 2 && made[0] == ind)
    ensures MapLog(sb, made, {ind}) ==
            (if |made| == 1 then {} else {BBlock(sb, ind), ind}) + {BBlock(sb, made[|made| - 1]),
                made[|made| - 1]} + {ind}
  {
  }

  // ---------------------------------------------------------------- the code

  /** An open file: its inode, what it was opened for, and the offset. */
  class OpenFile {
    const readable: bool
    const writable: bool
    const ip: nat
    var off: nat

    constructor (ip: nat, readable: bool, writable: bool)
      ensures this.ip == ip && this.readable == readable && this.writable == writable && off == 0
    {
      this.ip, this.readable, this.writable, off := ip, readable, writable, 0;
    }
  }

  class FileSystem {
    const sb: Super
    var bmap: seq<Block>
    var data: seq<Block>
    var inode: seq<Inode>  // in memory
    var dinode: seq<Inode> // on disk
    var logged: set<nat>   // blocks given to log_write since begin_op
    ghost var owner: Owner
    ghost var nb: seq<nat> // allocated blocks of each file

    constructor (sb: Super, s: Fs, ghost owner: Owner, ghost nb: seq<nat>)
      ensures this.sb == sb && Abs() == s && logged == {} && this.owner == owner && this.nb == nb
    {
      this.sb := sb;
      bmap, data, inode, dinode := s.bmap, s.data, s.inode, s.dinode;
      logged := {};
      this.owner, this.nb := owner, nb;
    }

    ghost function Abs(): Fs
      reads this
    {
      Fs(bmap, data, inode, dinode)
    }

    ghost predicate Valid()
      reads this
    {
      Owned(sb, Abs(), owner) && Exact(Abs(), nb)
    }

    /** Every block is in use, which is when balloc panics. */
    ghost predicate Full()
      reads this
    {
      sb.size <= |bmap| * BPB && forall c: nat :: c < sb.size ==> Bit(bmap, c)
    }

    /** balloc: the lowest-numbered free block, marked in use and zeroed; `ok` is false where it panics for none. */
    method Balloc() returns (ok: bool, b: nat)
      requires Owned(sb, Abs(), owner)
      modifies this`bmap, this`data, this`logged
      ensures ok ==>
                IsFree(sb, old(Abs()), b) && Abs() == Allocated(old(Abs()), b) &&
                logged == old(logged) + {BBlock(sb, b), b}
      ensures ok ==> forall c: nat :: c < b ==> Bit(old(bmap), c)
      ensures ok ==> AllLogged(sb, old(Abs()), Abs(), logged)
      ensures !ok ==> Abs() == old(Abs()) && logged == old(logged) && Full()
    {
      hide Ref, SlotOwned, BlockOwned, BitOf, PutByteBit, Zero, AllLogged;
      b := 0;
      while b < sb.size
        invariant b % BPB == 0 && Abs() == old(Abs()) && logged == old(logged)
        invariant forall c: nat :: c < b && c < sb.size ==> Bit(bmap, c)
        decreases sb.size - b
      {
        var bp := bmap[b / BPB];
        var bi := 0;
        while bi < BPB && b + bi < sb.size
          invariant bi <= BPB && Abs() == old(Abs()) && logged == old(logged)
          invariant forall c: nat :: c < b + bi && c < sb.size ==> Bit(bmap, c)
        {
          BitBase(b, bi);
          assert Bit(bmap, b + bi) == BitOf(bp[bi / 8], bi % 8);
          if !BitOf(bp[bi / 8], bi % 8) {
            assert IsFree(sb, Abs(), b + bi);
            BitSetLogged(sb, Abs(), b + bi, true, logged + {BBlock(sb, b), b + bi});
            bp := bp[bi / 8 := PutByteBit(bp[bi / 8], bi % 8, true)];
            bmap := bmap[b / BPB := bp];
            logged := logged + {BBlock(sb, b), b + bi};
            data := data[b + bi := Zero()];
            b := b + bi;
            ok := true;
            return;
          }
          bi := bi + 1;
        }
        b := b + BPB;
      }
      ok := false;
    }

    /** bmap: block bn of file i, allocated if it is the next one; `ok` is false where balloc panics, and where bmap
        does for a block number past the largest file. */
    method Bmap(i: nat, bn: nat) returns (ok: bool, b: nat, ghost made: seq<nat>)
      requires Valid() && i < |inode| && (bn <= nb[i] || bn >= MAXFILE)
      modifies this`bmap, this`data, this`inode, this`logged, this`owner, this`nb
      ensures bn >= MAXFILE ==> !ok && Abs() == old(Abs())
      ensures !ok && bn < MAXFILE ==> Full() && bn == old(nb)[i]
      ensures ok ==> Mapped(sb, old(Abs()), old(owner), old(nb), i, bn, Abs(), owner, b, made)
      ensures ok ==> nb == (if bn < old(nb)[i] then old(nb) else old(nb)[i := bn + 1]) && Valid()
      ensures ok ==>
                logged == old(logged) + MapLog(sb, made, if bn >= NDIRECT && made != [] then {Ref(Abs(), i, NDIRECT)}
                  else {})
      ensures ok ==> old(logged) <= logged && AllLogged(sb, old(Abs()), Abs(), logged)
    {
      if bn < NDIRECT {
        ok, b, made := BmapDirect(i, bn);
      } else if bn - NDIRECT < NINDIRECT {
        ok, b, made := BmapIndirect(i, bn);
      } else {
        ok, b, made := false, 0, [];
      }
    }

    method BmapDirect(i: nat, bn: nat) returns (ok: bool, b: nat, ghost made: seq<nat>)
      requires Valid() && i < |inode| && bn <= nb[i] && bn < NDIRECT
      modifies this`bmap, this`data, this`inode, this`logged, this`owner, this`nb
      ensures !ok ==> Full() && bn == old(nb)[i]
      ensures ok ==> Mapped(sb, old(Abs()), old(owner), old(nb), i, bn, Abs(), owner, b, made)
      ensures ok ==> nb == (if bn < old(nb)[i] then old(nb) else old(nb)[i := bn + 1]) && Valid()
      ensures ok ==> logged == old(logged) + MapLog(sb, made, {})
      ensures ok ==> old(logged) <= logged && AllLogged(sb, old(Abs()), Abs(), logged)
    {
      hide FilesKept, SlotOwned, BlockOwned, Full;
      ghost var s := Abs();
      made := [];
      ExactMeans(s, nb, i, bn);
      if bn < nb[i] {
        FoundMapped(sb, s, owner, nb, i, bn);
      }
      b := inode[i].addrs[bn];
      if b == 0 {
        ok, b := Balloc();
        if !ok {
          return;
        }
        DirectMapped(sb, s, owner, nb, i, b);
        inode := inode[i := inode[i].(addrs := inode[i].addrs[bn := b])];
        owner, nb, made := owner[b := (i, bn)], nb[i := bn + 1], [b];
        assert {BBlock(sb, b), b} == MapLog(sb, made, {});
      }
      ok := true;
    }

    /** The indirect block of file i, made if the file has none. */
    method LoadIndirect(i: nat) returns (ok: bool, ind: nat, ghost made: seq<nat>)
      requires Owned(sb, Abs(), owner) && i < |inode|
      modifies this`bmap, this`data, this`inode, this`logged, this`owner
      ensures !ok ==> Full() && old(inode)[i].addrs[NDIRECT] == 0
      ensures ok ==> Owned(sb, Abs(), owner) && |inode| == |old(inode)| && ind == inode[i].addrs[NDIRECT] != 0
      ensures ok ==> Loaded(sb, old(Abs()), old(owner), i, ind, Abs(), owner, made)
      ensures ok ==> logged == old(logged) + if made == [] then {} else {BBlock(sb, ind), ind}
      ensures ok ==> old(logged) <= logged && AllLogged(sb, old(Abs()), Abs(), logged)
    {
      made := [];
      ok, ind := true, inode[i].addrs[NDIRECT];
      if ind == 0 {
        ghost var s := Abs();
        ok, ind := Balloc();
        if !ok {
          return;
        }
        AddrOwned(sb, s, owner, i, ind);
        inode := inode[i := inode[i].(addrs := inode[i].addrs[NDIRECT := ind])];
        owner, made := owner[ind := (i, NDIRECT)], [ind];
      }
    }

    /** Allocate a block and enter it in the indirect block, which LoadIndirect found or made from state s. */
    method AddEntry(i: nat, bn: nat, ghost s: Fs, ghost owner0: Owner, ghost made0: seq<nat>)
        returns (ok: bool, b: nat, ghost made: seq<nat>)
      requires Owned(sb, Abs(), owner) && i < |inode| == |nb| && NDIRECT <= bn == nb[i] && bn < MAXFILE &&
               inode[i].addrs[NDIRECT] != 0
      requires Owned(sb, s, owner0) && Exact(s, nb) &&
               Loaded(sb, s, owner0, i, inode[i].addrs[NDIRECT], Abs(), owner, made0)
      modifies this`bmap, this`data, this`logged, this`owner, this`nb
      ensures !ok ==> Full()
      ensures ok ==>
                Mapped(sb, s, owner0, old(nb), i, bn, Abs(), owner, b, made) && nb == old(nb)[i := bn + 1] && Valid() &&
                made == made0 + [b]
      ensures ok ==> logged == old(logged) + {BBlock(sb, b), b} + {inode[i].addrs[NDIRECT]}
      ensures ok ==> old(logged) <= logged && AllLogged(sb, old(Abs()), Abs(), logged)
    {
      hide Owned, Mapped, Exact, Full, Bit, WithBit, Loaded;
      ghost var s1 := Abs();
      IndirectInRange(sb, s1, owner, i);
      ok, b := Balloc();
      made := made0 + [b];
      if ok {
        var ind := inode[i].addrs[NDIRECT];
        LoadedMapped(sb, s, owner0, nb, i, bn, ind, s1, owner, made0, b);
        data := data[ind := PutWord(data[ind], bn - NDIRECT, b)];
        logged := logged + {ind};
        owner, nb := owner[b := (i, bn + 1)], nb[i := bn + 1];
      }
    }

    method BmapIndirect(i: nat, bn: nat) returns (ok: bool, b: nat, ghost made: seq<nat>)
      requires Valid() && i < |inode| && NDIRECT <= bn <= nb[i] && bn < MAXFILE
      modifies this`bmap, this`data, this`inode, this`logged, this`owner, this`nb
      ensures !ok ==> Full() && bn == old(nb)[i]
      ensures ok ==> Mapped(sb, old(Abs()), old(owner), old(nb), i, bn, Abs(), owner, b, made)
      ensures ok ==> nb == (if bn < old(nb)[i] then old(nb) else old(nb)[i := bn + 1]) && Valid()
      ensures ok ==> logged == old(logged) + MapLog(sb, made, if made != [] then {Ref(Abs(), i, NDIRECT)} else {})
      ensures ok ==> old(logged) <= logged && AllLogged(sb, old(Abs()), Abs(), logged)
    {
      hide Owned, Mapped, ExactFor, IsFree, Loaded, Full, AllLogged;
      ghost var s, owner0 := Abs(), owner;
      ExactMeans(s, nb, i, bn);
      var ind;
      ok, ind, made := LoadIndirect(i);
      if !ok {
        return false, 0, [];
      }
      ghost var s1, log1 := Abs(), logged;
      IndirectInRange(sb, s1, owner, i);
      LoadedEntry(sb, s, owner0, nb, i, bn, ind, Abs(), owner, made);
      b := GetWord(data[ind], bn - NDIRECT);
      if b == 0 {
        ghost var made0 := made;
        ok, b, made := AddEntry(i, bn, s, owner0, made0);
        if !ok {
          return;
        }
        MapLogIs(sb, made, ind);
        LoggedTrans(sb, s, s1, Abs(), log1, logged);
      } else {
        FoundMapped(sb, s, owner, nb, i, bn);
      }
      ok := true;
    }

    /** One iteration of writei's loop: the part of the source that falls in one block. */
    method WriteOne(i: nat, off: nat, piece: seq<byte>) returns (ok: bool, ghost b: nat, ghost made: seq<nat>)
      requires Valid() && i < |inode| && off / BSIZE <= nb[i] && off / BSIZE < MAXFILE && 0 < |piece| &&
               off % BSIZE + |piece| <= BSIZE
      modifies this`bmap, this`data, this`inode, this`logged, this`owner, this`nb
      ensures !ok ==> Full()
      ensures ok ==> Valid() && Wrote(old(Abs()), old(nb), i, off, piece, Abs(), nb)
      ensures ok ==> logged <= old(logged) + {b} + BitmapBlocks(sb, made) + Indirect(Abs(), i)
      ensures ok ==> |made| == (if off / BSIZE < old(nb)[i] then 0 else if off / BSIZE == NDIRECT then 2 else 1)
      ensures ok ==> Indirect(old(Abs()), i) <= Indirect(Abs(), i) && forall x :: x in made ==> x < sb.size
      ensures ok ==> RefsKept(old(Abs()), Abs(), i, old(nb)[i]) && old(logged) <= logged &&
                     Ref(Abs(), i, SlotOf(off / BSIZE)) in logged
      ensures ok ==> AllLogged(sb, old(Abs()), Abs(), logged)
    {
      hide Mapped, Wrote, Owned, ExactFor, FilesKept, Full, RefsKept, AllLogged;
      ghost var s, nb0, owner0 := Abs(), nb, owner;
      var blk;
      ok, blk, made := Bmap(i, off / BSIZE);
      b := blk;
      if !ok {
        return;
      }
      WriteOneDone(sb, s, owner0, nb0, i, off, piece, Abs(), owner, nb, blk, made);
      MadeInRange(sb, s, owner0, nb0, i, off / BSIZE, Abs(), owner, blk, made);
      SplicedRefs(sb, s, owner0, nb0, i, off / BSIZE, Abs(), owner, blk, made, Spliced(data[blk], off % BSIZE, piece));
      ghost var s1, log1 := Abs(), logged;
      data := data[blk := Spliced(data[blk], off % BSIZE, piece)];
      logged := logged + {blk};
      DataLogged(sb, s1, blk, data[blk], logged);
      LoggedTrans(sb, s, s1, Abs(), log1, logged);
    }

    /** Between operations every file has exactly the blocks its size needs and the disk copy of each inode is
        current. */
    ghost predicate Steady()
      reads this
    {
      Valid() && inode == dinode && Counted(Abs(), nb)
    }

    /** writei's loop. */
    method WriteBlocks(i: nat, off: nat, src: seq<byte>) returns (ok: bool, ghost log: set<nat>)
      requires Steady() && i < |inode| && off <= inode[i].size && off + |src| <= MAXFILE * BSIZE
      modifies this`bmap, this`data, this`inode, this`logged, this`owner, this`nb
      ensures !ok ==> Full()
      ensures ok ==> Valid() && Wrote(old(Abs()), old(nb), i, off, src, Abs(), nb)
      ensures ok ==> logged <= old(logged) + log && old(logged) <= logged && Touched(off, |src|) <= |logged|
      ensures ok ==> AllLogged(sb, old(Abs()), Abs(), logged)
      ensures ok ==> var m := Made(old(nb)[i], nb[i]);
                |log| <= Touched(off, |src|) + (if m < Bitmaps(sb) then m else Bitmaps(sb)) + 1
    {
      hide Wrote, Owned, Exact, BlocksFor, Count, Touched, Made, Full, Bitmaps, RefsKept, Ref, SlotOf, AllLogged,
        Logging, BitmapBlocks, Indirect;
      ghost var s, nb0, log0 := Abs(), nb, logged;
      EmptyCount(inode[i].size, off);
      ghost var blocks: set<nat>, made: seq<nat> := {}, [];
      var tot := 0;
      ok, log := true, {};
      WroteNothing(s, nb0, i, off);
      LoggingStart(sb, s, nb0, log0, i, off);
      while tot < |src|
        invariant tot <= |src| && (0 < tot < |src| ==> (off + tot) % BSIZE == 0)
        invariant Valid() && Wrote(s, nb0, i, off, src[..tot], Abs(), nb) && i < |inode| == |nb|
        invariant nb0[i] <= nb[i] == Count(nb0[i], off, tot)
        invariant Logging(sb, s, nb0[i], log0, i, off, tot, Abs(), nb[i], blocks, made, logged)
      {
        var m := if |src| - tot < BSIZE - (off + tot) % BSIZE then |src| - tot else BSIZE - (off + tot) % BSIZE;
        ghost var s1, nb1, log1 := Abs(), nb, logged;
        PieceCount(nb0[i], off, tot, m, |src|);
        ghost var b, more;
        ok, b, more := WriteOne(i, off + tot, src[tot..tot + m]);
        if !ok {
          return;
        }
        WroteNext(s, nb0, i, off, src, tot, m, s1, nb1, Abs(), nb);
        LoggingNext(sb, s, nb0[i], log0, i, off, tot, m, |src|, s1, nb1[i], blocks, made, log1, Abs(), nb[i], b, more,
          logged);
        blocks, made := blocks + {b}, made + more;
        tot := tot + m;
      }
      assert src[..tot] == src;
      log := blocks + BitmapBlocks(sb, made) + Indirect(Abs(), i);
      LoggingDone(sb, s, nb0[i], log0, i, off, tot, Abs(), owner, nb, blocks, made, logged);
    }

    /** iupdate: inode i goes to disk as it is in memory. */
    method Iupdate(i: nat)
      requires i < |inode| == |dinode|
      modifies this`dinode, this`logged
      ensures dinode == old(dinode)[i := inode[i]] && logged == old(logged) + {IBlock(sb, i)}
    {
      dinode := dinode[i := inode[i]];
      logged := logged + {IBlock(sb, i)};
    }

    /** writei on a file. `ok` is false where balloc panics for want of a free block; `log` is what it gave to
        log_write. */
    method Writei(i: nat, off: nat, src: seq<byte>) returns (ok: bool, r: int, ghost log: set<nat>)
      requires Steady() && i < |inode| && off < UINT && |src| < UINT
      modifies this`bmap, this`data, this`inode, this`dinode, this`logged, this`owner, this`nb
      ensures !ok ==> Full() && !Refused(old(inode)[i].size, off, |src|)
      ensures ok ==> Steady() && |inode| == |old(inode)|
      ensures ok ==> r == if Refused(old(inode)[i].size, off, |src|) then -1 else |src|
      ensures ok ==> (r >= 0 <==> off <= old(inode)[i].size && off + |src| <= MAXFILE * BSIZE)
      ensures ok && r == -1 ==> Abs() == old(Abs()) && log == {}
      ensures ok && r >= 0 ==> Content(Abs(), i) == Overlay(Content(old(Abs()), i), off, src)
      ensures ok ==> forall x: nat :: x < |inode| && x != i ==>
              inode[x] == old(inode)[x] && Content(Abs(), x) == Content(old(Abs()), x)
      ensures ok ==> logged <= old(logged) + log
      ensures ok ==> old(logged) <= logged && AllLogged(sb, old(Abs()), Abs(), logged)
      ensures ok && r >= 0 ==> |log| <= Dirtied(old(inode)[i].size, off, |src|, Bitmaps(sb))
      ensures ok && r >= 0 ==> Touched(off, |src|) <= |logged|
    {
      hide Wrote, Owned, ExactFor, Ref, Content, Overlay, Full, AllLogged;
      NothingLogged(sb, Abs(), logged);
      if off > inode[i].size || (off + |src|) % UINT < off {
        return true, -1, {};
      }
      if (off + |src|) % UINT > MAXFILE * BSIZE {
        return true, -1, {};
      }
      ghost var s, owner0, nb0 := Abs(), owner, nb;
      ok, log := WriteBlocks(i, off, src);
      if !ok {
        r := 0;
        return;
      }
      WriteDone(sb, s, owner0, nb0, i, off, src, Abs(), owner, nb);
      WroteSizes(s, nb0, i, off, src, Abs(), nb);
      r := |src|;
      if |src| > 0 && off + |src| > inode[i].size {
        ghost var s1, before := Abs(), logged;
        inode := inode[i := inode[i].(size := off + |src|)];
        Iupdate(i);
        InodeLogged(sb, s1, i, inode, inode[i], logged);
        LoggedTrans(sb, s, s1, Abs(), before, logged);
        SubsetCard(before, logged);
        log := log + {IBlock(sb, i)};
      }
    }

    /** One iteration of readi's loop: at most m bytes from offset p, those in its block. */
    method ReadOne(i: nat, p: nat, m: nat) returns (piece: seq<byte>)
      requires Steady() && i < |inode| && 0 < m && p + m <= inode[i].size
      modifies this`bmap, this`data, this`inode, this`logged, this`owner, this`nb
      ensures Abs() == old(Abs()) && logged == old(logged) && owner == old(owner) && nb == old(nb)
      ensures 0 < |piece| <= m && piece == Content(Abs(), i)[p..p + |piece|]
    {
      hide Owned, BlocksFor, Mapped, Content, Ref, ExactFor, Full;
      InFile(sb, Abs(), owner, nb, i, p);
      ghost var s := Abs();
      var ok, b;
      ghost var made;
      ok, b, made := Bmap(i, p / BSIZE);
      FoundSame(sb, s, old(owner), old(nb), i, p / BSIZE, Abs(), owner, b, made);
      var o := p % BSIZE;
      var len := if m < BSIZE - o then m else BSIZE - o;
      PieceRead(s, i, p, len, b);
      piece := data[b][o..o + len];
    }

    /** readi on a file: bytes up to the end of the file, and no change at all, so no allocation and nothing logged. */
    method Readi(i: nat, off: nat, n: nat) returns (r: int, dst: seq<byte>)
      requires Steady() && i < |inode| && off < UINT && n < UINT
      modifies this`bmap, this`data, this`inode, this`logged, this`owner, this`nb
      ensures Abs() == old(Abs()) && logged == old(logged) && owner == old(owner) && nb == old(nb)
      ensures r == -1 <==> off > inode[i].size || off + n >= UINT
      ensures r != -1 ==> 0 <= r && off + r <= inode[i].size && dst == Content(Abs(), i)[off..off + r]
      ensures r != -1 ==> r == n || off + r == inode[i].size < off + n
    {
      hide Owned, Exact, Content, Counted;
      ContentSize(Abs(), i);
      dst := [];
      if off > inode[i].size || (off + n) % UINT < off {
        return -1, [];
      }
      var len := if (off + n) % UINT > inode[i].size then inode[i].size - off else n;
      while |dst| < len
        invariant Abs() == old(Abs()) && logged == old(logged) && owner == old(owner) && nb == old(nb)
        invariant |dst| <= len && dst == Content(Abs(), i)[off..off + |dst|]
      {
        var piece := ReadOne(i, off + |dst|, len - |dst|);
        Adjoining(Content(Abs(), i), off, off + |dst|, off + |dst| + |piece|);
        dst := dst + piece;
      }
      r := len;
    }

    /** fileread on an inode: the offset moves past what was read. */
    method Fileread(f: OpenFile, n: nat) returns (r: int, dst: seq<byte>)
      requires Steady() && f.ip < |inode| && f.off < UINT && n < UINT
      modifies this`bmap, this`data, this`inode, this`logged, this`owner, this`nb, f`off
      ensures Abs() == old(Abs()) && logged == old(logged) && owner == old(owner) && nb == old(nb)
      ensures r == -1 <==> !f.readable || old(f.off) > inode[f.ip].size || old(f.off) + n >= UINT
      ensures r == -1 ==> f.off == old(f.off)
      ensures r != -1 ==>
                old(f.off) <= f.off <= |Content(Abs(), f.ip)| && dst == Content(Abs(), f.ip)[old(f.off)..f.off] &&
                r == |dst|
      ensures r != -1 ==> r == n || f.off == |Content(Abs(), f.ip)|
    {
      hide Owned, Exact, Counted;
      if !f.readable {
        return -1, [];
      }
      r, dst := Readi(f.ip, f.off, n);
      if r > 0 {
        f.off := f.off + r;
      }
    }

    /** One iteration of filewrite's loop, a transaction of its own. */
    method WriteChunk(f: OpenFile, src: seq<byte>) returns (ok: bool, r: int)
      requires Steady() && f.ip < |inode| && f.off < UINT && 0 < |src| <= CHUNK
      modifies this`bmap, this`data, this`inode, this`dinode, this`logged, this`owner, this`nb, f`off
      ensures !ok ==> Full()
      ensures ok ==> Steady() && |inode| == |old(inode)| && |logged| <= LOGSIZE
      ensures ok ==> AllLogged(sb, old(Abs()), Abs(), logged)
      ensures ok && r >= 0 ==> Touched(old(f.off), |src|) <= |logged|
      ensures ok ==> r == if old(f.off) > old(inode)[f.ip].size || old(f.off) + |src| > MAXFILE * BSIZE then -1
              else |src|
      ensures ok && r == -1 ==> Abs() == old(Abs()) && f.off == old(f.off)
      ensures ok && r >= 0 ==>
                Content(Abs(), f.ip) == Overlay(Content(old(Abs()), f.ip), old(f.off), src) &&
                f.off == old(f.off) + |src|
      ensures ok ==> forall x: nat :: x < |inode| && x != f.ip ==>
              inode[x] == old(inode)[x] && Content(Abs(), x) == Content(old(Abs()), x)
    {
      hide Owned, Exact, ExactFor, Content, Overlay, Dirtied, Full, AllLogged;
      SizeFits(sb, Abs(), owner, nb, f.ip);
      if f.off <= inode[f.ip].size {
        ChunkFits(inode[f.ip].size, f.off, |src|, Bitmaps(sb));
      }
      logged := {};
      ghost var log;
      ok, r, log := Writei(f.ip, f.off, src);
      if ok && r > 0 {
        f.off := f.off + r;
      }
      SubsetCard(logged, if ok then log else logged);
    }

    /** filewrite on an inode; `chunks` holds the blocks that each transaction logged, and `states` what the disk was
        before and after each of them. */
    method Filewrite(f: OpenFile, src: seq<byte>, n: int)
        returns (ok: bool, r: int, ghost chunks: seq<set<nat>>, ghost states: seq<Fs>)
      requires Steady() && f.ip < |inode| && f.off < UINT && n <= |src| && n < INT
      modifies this`bmap, this`data, this`inode, this`dinode, this`logged, this`owner, this`nb, f`off
      ensures !ok ==> Full()
      ensures ok ==> Steady() && |inode| == |old(inode)| && old(f.off) <= f.off
      ensures ok ==> forall c :: c in chunks ==> |c| <= LOGSIZE
      ensures ok ==> |states| == |chunks| + 1 && states[0] == old(Abs()) && states[|chunks|] == Abs() &&
                     forall k: nat :: k < |chunks| ==> AllLogged(sb, states[k], states[k + 1], chunks[k])
      ensures ok ==> forall k :: 0 <= k < |chunks| - 1 ==> |chunks[k]| > MAXOPBLOCKS
      ensures ok ==> FileWritten(old(Abs()), Abs(), f.ip, old(f.off), src, f.off - old(f.off))
      ensures ok ==> r == if f.writable && f.off == old(f.off) + n then n else -1
      ensures ok && !f.writable ==> f.off == old(f.off)
      ensures ok && f.writable && r != n >= 0 ==> Stopped(old(inode)[f.ip].size, old(f.off), n, f.off - old(f.off))
      ensures ok && f.writable && r != n >= 0 ==> old(f.off) > old(inode)[f.ip].size || old(f.off) + n > MAXFILE * BSIZE
    {
      hide Owned, Exact, Counted, Content, Overlay, FileWritten, WellSized, BlocksFor, Full, AllLogged;
      ok, chunks, states := true, [], [Abs()];
      ghost var s, off := Abs(), f.off;
      NothingWritten(s, f.ip, off, src);
      if !f.writable {
        return true, -1, [], states;
      }
      var i := 0;
      while i < n
        invariant 0 <= i && (i <= n || i == 0) && f.off == off + i && (i < n ==> i % CHUNK == 0) && f.off < UINT
        invariant Steady() && |inode| == |s.inode| && FileWritten(s, Abs(), f.ip, off, src, i)
        invariant forall c :: c in chunks ==> |c| <= LOGSIZE
        invariant |states| == |chunks| + 1 && states[0] == s && states[|chunks|] == Abs()
        invariant forall k: nat :: k < |chunks| ==> AllLogged(sb, states[k], states[k + 1], chunks[k])
        invariant forall k :: 0 <= k < |chunks| && (k < |chunks| - 1 || i < n) ==> |chunks[k]| > MAXOPBLOCKS
      {
        ChunkTouches(f.off);
        var n1 := if n - i > CHUNK then CHUNK else n - i;
        ghost var s1 := Abs();
        WrittenSize(s, s1, f.ip, off, src, i);
        ok, r := WriteChunk(f, src[i..i + n1]);
        if !ok {
          return;
        }
        if r < 0 {
          break;
        }
        chunks, states := chunks + [logged], states + [Abs()];
        NextChunk(i, n);
        WrittenMore(s, s1, Abs(), f.ip, off, src, i, n1);
        i := i + r;
      }
      r := if i == n then n else -1;
    }

    /** bfree; `ok` is false where it panics for a block that is free already. */
    method Bfree(b: nat) returns (ok: bool)
      requires b / BPB < |bmap|
      modifies this`bmap, this`logged
      ensures ok == Bit(old(bmap), b)
      ensures bmap == (if ok then WithBit(old(bmap), b, false) else old(bmap)) &&
              logged == old(logged) + if ok then {BBlock(sb, b)} else {}
    {
      hide BitOf, PutByteBit;
      var bp, bi := bmap[b / BPB], b % BPB;
      assert bi % 8 == b % 8;
      if !BitOf(bp[bi / 8], bi % 8) {
        return false;
      }
      bp := bp[bi / 8 := PutByteBit(bp[bi / 8], bi % 8, false)];
      bmap := bmap[b / BPB := bp];
      logged := logged + {BBlock(sb, b)};
      ok := true;
    }

    /** itrunc never reaches bfree's panic: it frees exactly the blocks of file i, each once, and empties the file. */
    method Itrunc(i: nat) returns (ok: bool)
      requires Steady() && i < |inode|
      modifies this`bmap, this`inode, this`dinode, this`logged, this`owner, this`nb
      ensures ok && Steady() && |inode| == |old(inode)| && inode[i] == Inode(0, NoAddrs()) && Content(Abs(), i) == []
      ensures forall x: nat :: x < |inode| && x != i ==>
              inode[x] == old(inode)[x] && Content(Abs(), x) == Content(old(Abs()), x)
      ensures forall b: nat :: b < sb.size ==> (Bit(bmap, b) <==>
                Bit(old(bmap), b) && (b in old(owner) ==> old(owner)[b].0 != i))
      ensures old(logged) <= logged && AllLogged(sb, old(Abs()), Abs(), logged)
    {
      hide Owned, Exact, Content, Bit, WithBit, Released, Counted, Ref, AllLogged;
      ghost var s := Abs();
      SteadySizes(sb, s, owner, nb);
      ok := FreeDirect(i);
      if !ok {
        return;
      }
      ghost var s1, log1 := Abs(), logged;
      ok := FreeIndirect(i, s);
      if !ok {
        return;
      }
      ghost var s2, log2 := s1.(bmap := bmap), logged;
      inode := inode[i := inode[i].(size := 0)];
      Iupdate(i);
      InodeLogged(sb, s2, i, inode, inode[i], logged);
      LoggedTrans(sb, s, s1, s2, log1, log2);
      LoggedTrans(sb, s, s2, Abs(), log2, logged);
      TruncDone(sb, s, owner, nb, i, bmap);
      assert inode[i] == Inode(0, NoAddrs());
      owner, nb := Without(owner, i), nb[i := 0];
      assert Abs() == Emptied(s, i, bmap);
    }

    method FreeDirect(i: nat) returns (ok: bool)
      requires Owned(sb, Abs(), owner) && i < |inode|
      modifies this`bmap, this`inode, this`logged
      ensures ok && |bmap| == |old(bmap)| && Released(sb, owner, i, NDIRECT, bmap)
      ensures |inode| == |old(inode)| && inode == old(inode)[i := old(inode)[i].(addrs := inode[i].addrs)] &&
              Cleared(old(inode)[i].addrs, inode[i].addrs, NDIRECT)
      ensures old(logged) <= logged && AllLogged(sb, old(Abs()), Abs(), logged)
    {
      hide Owned, Bit, WithBit, Released, AllLogged;
      ghost var s := Abs();
      ReleaseStart(sb, s, owner, i);
      NothingLogged(sb, s, logged);
      var k := 0;
      while k < NDIRECT
        invariant k <= NDIRECT && |bmap| == |old(bmap)| && Released(sb, owner, i, k, bmap)
        invariant |inode| == |s.inode| && inode == s.inode[i := s.inode[i].(addrs := inode[i].addrs)]
        invariant Cleared(s.inode[i].addrs, inode[i].addrs, k)
        invariant old(logged) <= logged && AllLogged(sb, s, s.(bmap := bmap), logged)
      {
        assert Ref(s, i, k) == inode[i].addrs[k];
        if inode[i].addrs[k] != 0 {
          ReleaseOne(sb, s, owner, i, k, bmap, k);
          FreedLogged(sb, s, bmap, inode[i].addrs[k], logged);
          ok := Bfree(inode[i].addrs[k]);
          inode := inode[i := inode[i].(addrs := inode[i].addrs[k := 0])];
        } else {
          ReleaseNone(sb, s, owner, i, k, bmap, k);
        }
        k := k + 1;
      }
      ok := true;
      InodeLoggedNone(sb, s, s.(bmap := bmap), inode, logged);
    }

    /** The second half of itrunc, from where the direct blocks of the original state s have been freed. */
    method FreeIndirect(i: nat, ghost s: Fs) returns (ok: bool)
      requires Owned(sb, s, owner) && i < |s.inode| && |bmap| == |s.bmap| && data == s.data &&
               Released(sb, owner, i, NDIRECT, bmap)
      requires |inode| == |s.inode| && inode == s.inode[i := s.inode[i].(addrs := inode[i].addrs)] &&
               Cleared(s.inode[i].addrs, inode[i].addrs, NDIRECT)
      modifies this`bmap, this`inode, this`logged
      ensures ok && |bmap| == |s.bmap| && Released(sb, owner, i, SLOTS, bmap)
      ensures inode == s.inode[i := s.inode[i].(addrs := NoAddrs())]
      ensures old(logged) <= logged && AllLogged(sb, old(Abs()), old(Abs()).(bmap := bmap), logged)
    {
      hide Owned, Bit, WithBit, Released, AllLogged;
      ghost var s0 := Abs();
      NothingLogged(sb, s0, logged);
      var ind := inode[i].addrs[NDIRECT];
      if ind != 0 {
        IndirectInRange(sb, s, owner, i);
        var a, j := data[ind], 0;
        while j < NINDIRECT
          invariant j <= NINDIRECT && |bmap| == |s.bmap| && Released(sb, owner, i, NDIRECT + j, bmap)
          invariant old(logged) <= logged && AllLogged(sb, s0, s0.(bmap := bmap), logged)
          modifies this`bmap, this`logged
        {
          assert Ref(s, i, NDIRECT + 1 + j) == GetWord(a, j);
          if GetWord(a, j) != 0 {
            ReleaseOne(sb, s, owner, i, NDIRECT + j, bmap, NDIRECT + 1 + j);
            FreedLogged(sb, s0, bmap, GetWord(a, j), logged);
            ok := Bfree(GetWord(a, j));
          } else {
            ReleaseNone(sb, s, owner, i, NDIRECT + j, bmap, NDIRECT + 1 + j);
          }
          j := j + 1;
        }
        ReleaseOne(sb, s, owner, i, NDIRECT + j, bmap, NDIRECT);
        FreedLogged(sb, s0, bmap, inode[i].addrs[NDIRECT], logged);
        ok := Bfree(inode[i].addrs[NDIRECT]);
        inode := inode[i := inode[i].(addrs := inode[i].addrs[NDIRECT := 0])];
      } else {
        ReleaseEntries(sb, s, owner, i, bmap);
      }
      ok := true;
      assert inode[i].addrs == NoAddrs();
    }
  }
}
