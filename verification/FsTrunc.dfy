/** Truncation on values: slots of one inode given back one by one, then the inode emptied. */
module FsTrunc {
  import opened Basics
  import opened Blocks
  import opened Bitmap
  import opened FsModel
  import opened FsBytes

  /** The order in which itrunc visits the slots of an inode: direct entries, indirect entries, the indirect block. */
  function Turn(a: nat): nat {
    if a < NDIRECT then a else if a == NDIRECT then MAXFILE else a - 1
  }

  /** The bitmap when itrunc has visited t slots: everything in use as before, except what those slots of inode i
      named. */
  ghost predicate Released(sb: Super, owner: Owner, i: nat, t: nat, bmap: seq<Block>) {
    sb.size <= |bmap| * BPB &&
    forall b: nat :: b < sb.size ==> (Bit(bmap, b) <==>
        b < sb.nmeta || (b in owner && !(owner[b].0 == i && Turn(owner[b].1) < t)))
  }

  /** The block in a slot not done yet is still marked, so freeing it does not panic; then that slot is done too. */
  lemma ReleaseOne(sb: Super, s: Fs, owner: Owner, i: nat, t: nat, bmap: seq<Block>, a: nat)
    requires Owned(sb, s, owner) && i < |s.inode| && a < SLOTS && Turn(a) == t && Ref(s, i, a) != 0 &&
             Released(sb, owner, i, t, bmap)
    ensures var b := Ref(s, i, a);
            b / BPB < |bmap| && Bit(bmap, b) && Released(sb, owner, i, t + 1, WithBit(bmap, b, false))
  {
    hide Ref, Bit, WithBit;
    var b := Ref(s, i, a);
    assert SlotOwned(s, owner, i, a);
    assert BlockOwned(sb, s, owner, b);
    forall c: nat | c < sb.size
      ensures Bit(WithBit(bmap, b, false), c) <==>
              c < sb.nmeta || (c in owner && !(owner[c].0 == i && Turn(owner[c].1) < t + 1))
    {
      WithBitIs(bmap, b, false, c);
      if c in owner {
        assert BlockOwned(sb, s, owner, c);
      }
    }
  }

  lemma ReleaseNone(sb: Super, s: Fs, owner: Owner, i: nat, t: nat, bmap: seq<Block>, a: nat)
    requires Owned(sb, s, owner) && i < |s.inode| && a < SLOTS && Turn(a) == t && Ref(s, i, a) == 0 &&
             Released(sb, owner, i, t, bmap)
    ensures Released(sb, owner, i, t + 1, bmap)
  {
  }

  function NoAddrs(): seq<nat> {
    seq(NDIRECT + 1, k => 0)
  }

  function Emptied(s: Fs, i: nat, bmap: seq<Block>): Fs
    requires i < |s.inode| && i < |s.dinode|
  {
    var ip := Inode(0, NoAddrs());
    s.(bmap := bmap, inode := s.inode[i := ip], dinode := s.dinode[i := ip])
  }

  ghost function Without(owner: Owner, i: nat): Owner {
    map b | b in owner && owner[b].0 != i :: owner[b]
  }

  /** With every slot done the file is empty, its blocks and only those are free, and no other file has changed. */
  lemma TruncDone(sb: Super, s: Fs, owner: Owner, nb: seq<nat>, i: nat, bmap: seq<Block>)
    requires Owned(sb, s, owner) && Exact(s, nb) && Counted(s, nb) && s.inode == s.dinode && i < |nb| &&
             |bmap| == |s.bmap|
    requires Released(sb, owner, i, SLOTS, bmap)
    ensures var s' := Emptied(s, i, bmap);
            Owned(sb, s', Without(owner, i)) && Exact(s', nb[i := 0]) && Counted(s', nb[i := 0]) &&
            Content(s', i) == [] &&
            (forall x: nat :: x < |s.inode| && x != i ==>
                s'.inode[x] == s.inode[x] && Content(s', x) == Content(s, x)) &&
            forall b: nat :: b < sb.size ==> (Bit(bmap, b) <==> Bit(s.bmap, b) && (b in owner ==> owner[b].0 != i))
  {
    hide Bit;
    var s', nb' := Emptied(s, i, bmap), nb[i := 0];
    forall b: nat | b < sb.size && b in owner
      ensures Turn(owner[b].1) < SLOTS
    {
      assert BlockOwned(sb, s, owner, b);
    }
    TruncOwned(sb, s, owner, i, bmap);
    hide Ref;
    forall x: nat | x < |nb|
      ensures ExactFor(s', x, nb'[x])
    {
      TruncExact(s, i, bmap, x, nb[x]);
    }
    forall x: nat | x < |s.inode| && x != i
      ensures Content(s', x) == Content(s, x)
    {
      TruncContent(s, i, bmap, x);
    }
  }

  lemma TruncRefs(s: Fs, i: nat, bmap: seq<Block>, x: nat, y: nat)
    requires i < |s.inode| == |s.dinode| && x < |s.inode| && y < SLOTS
    ensures Ref(Emptied(s, i, bmap), x, y) == if x == i then 0 else Ref(s, x, y)
  {
  }

  lemma TruncContent(s: Fs, i: nat, bmap: seq<Block>, x: nat)
    requires i < |s.inode| == |s.dinode| && x < |s.inode| && x != i
    ensures Content(Emptied(s, i, bmap), x) == Content(s, x)
  {
  }

  lemma TruncExact(s: Fs, i: nat, bmap: seq<Block>, x: nat, n: nat)
    requires i < |s.inode| == |s.dinode| && x < |s.inode| && ExactFor(s, x, n)
    ensures ExactFor(Emptied(s, i, bmap), x, if x == i then 0 else n)
  {
  }

  lemma TruncOwned(sb: Super, s: Fs, owner: Owner, i: nat, bmap: seq<Block>)
    requires Owned(sb, s, owner) && i < |s.inode| && |bmap| == |s.bmap|
    requires forall b: nat :: b < sb.size ==> (Bit(bmap, b) <==> b < sb.nmeta || (b in owner && owner[b].0 != i))
    ensures Owned(sb, Emptied(s, i, bmap), Without(owner, i))
  {
    hide Ref, Bit;
    var s', owner' := Emptied(s, i, bmap), Without(owner, i);
    forall x: nat, y: nat | x < |s'.inode| && y < SLOTS
      ensures SlotOwned(s', owner', x, y)
    {
      TruncRefs(s, i, bmap, x, y);
      assert SlotOwned(s, owner, x, y);
    }
    forall b | b in owner'
      ensures BlockOwned(sb, s', owner', b)
    {
      assert BlockOwned(sb, s, owner, b);
      TruncRefs(s, i, bmap, owner[b].0, owner[b].1);
    }
  }
}
