/** The on-disk redo log of log.c as a sequence of single-block writes, and what recovery makes of any
    prefix of them. */
module LogDisk {
  import opened Basics
  import opened Blocks

  const MAXOPBLOCKS: nat := 10
  const LOGSIZE: nat := MAXOPBLOCKS * 3

  type Disk = seq<Block>
  type Write = (nat, Block)

  /** log.start and log.size. The header is block `start`; logged blocks follow it. */
  datatype Layout = Layout(start: nat, size: nat)

  predicate InLog(l: Layout, b: nat) {
    l.start <= b < l.start + l.size
  }

  predicate Fits(l: Layout, d: Disk) {
    0 < l.size && l.start + l.size <= |d| <= 0x1_0000_0000
  }

  // ---------------------------------------------------------------- the header block

  function HeaderCount(b: Block): nat {
    GetWord(b, 0)
  }

  /** The block numbers the header lists. */
  function HeaderList(b: Block): (r: seq<nat>)
    requires HeaderCount(b) <= LOGSIZE
    ensures |r| == HeaderCount(b)
  {
    seq(HeaderCount(b), i requires 0 <= i < LOGSIZE => GetWord(b, i + 1))
  }

  /** write_head after storing `n` and the first k entries; the rest of the block stays as it was. */
  function PutEntries(b: Block, lh: seq<nat>, k: nat): Block
    requires k <= |lh| <= LOGSIZE && forall i :: 0 <= i < |lh| ==> lh[i] < 0x1_0000_0000
  {
    if k == 0 then PutWord(b, 0, |lh|) else PutWord(PutEntries(b, lh, k - 1), k, lh[k - 1])
  }

  function PutHeader(b: Block, lh: seq<nat>): Block
    requires |lh| <= LOGSIZE && forall i :: 0 <= i < |lh| ==> lh[i] < 0x1_0000_0000
  {
    PutEntries(b, lh, |lh|)
  }

  lemma {:induction false} PutEntriesWord(b: Block, lh: seq<nat>, k: nat, j: nat)
    requires k <= |lh| <= LOGSIZE && forall i :: 0 <= i < |lh| ==> lh[i] < 0x1_0000_0000
    requires j <= k
    ensures GetWord(PutEntries(b, lh, k), j) == if j == 0 then |lh| else lh[j - 1]
  {
    if k == 0 {
      GetPut(b, 0, |lh|, 0);
    } else {
      GetPut(PutEntries(b, lh, k - 1), k, lh[k - 1], j);
      if j < k {
        PutEntriesWord(b, lh, k - 1, j);
      }
    }
  }

  /** read_head reads back what write_head wrote. */
  lemma HeaderRoundTrip(b: Block, lh: seq<nat>)
    requires |lh| <= LOGSIZE && forall i :: 0 <= i < |lh| ==> lh[i] < 0x1_0000_0000
    ensures HeaderCount(PutHeader(b, lh)) == |lh| && HeaderList(PutHeader(b, lh)) == lh
  {
    PutEntriesWord(b, lh, |lh|, 0);
    forall i | 0 <= i < |lh|
      ensures HeaderList(PutHeader(b, lh))[i] == lh[i]
    {
      PutEntriesWord(b, lh, |lh|, i + 1);
    }
  }

  // ---------------------------------------------------------------- sequences of writes

  function Apply(d: Disk, ws: seq<Write>): (r: Disk)
    ensures |r| == |d|
  {
    if ws == [] then d
    else
      var w := ws[|ws| - 1];
      var before := Apply(d, ws[..|ws| - 1]);
      if w.0 < |d| then before[w.0 := w.1] else before
  }

  lemma ApplyNone(d: Disk, ws: seq<Write>)
    ensures Apply(d, ws[..0]) == d
  {
  }

  lemma ApplyOne(d: Disk, w: Write)
    requires w.0 < |d|
    ensures Apply(d, [w]) == d[w.0 := w.1]
  {
  }

  lemma {:induction false} ApplyAppend(d: Disk, a: seq<Write>, b: seq<Write>)
    ensures Apply(d, a + b) == Apply(Apply(d, a), b)
  {
    if b == [] {
      assert a + b == a;
    } else {
      ApplyAppend(d, a, b[..|b| - 1]);
      assert (a + b)[..|a + b| - 1] == a + b[..|b| - 1];
    }
  }

  /** Blocks that no write names keep their contents. */
  lemma {:induction false} ApplyOther(d: Disk, ws: seq<Write>, b: nat)
    requires b < |d| && forall i :: 0 <= i < |ws| ==> ws[i].0 != b
    ensures Apply(d, ws)[b] == d[b]
  {
    if ws != [] {
      ApplyOther(d, ws[..|ws| - 1], b);
    }
  }

  /** A block named once holds what was written to it. */
  lemma {:induction false} ApplyAt(d: Disk, ws: seq<Write>, i: nat)
    requires i < |ws| && ws[i].0 < |d| && forall j :: i < j < |ws| ==> ws[j].0 != ws[i].0
    ensures Apply(d, ws)[ws[i].0] == ws[i].1
  {
    if i < |ws| - 1 {
      ApplyAt(d, ws[..|ws| - 1], i);
    }
  }

  // ---------------------------------------------------------------- commit and recovery

  /** Distinct home blocks, outside the log area, fitting the header and the log. */
  ghost predicate GoodList(l: Layout, size: nat, lh: seq<nat>) {
    |lh| <= LOGSIZE && |lh| < l.size &&
    (forall i :: 0 <= i < |lh| ==> lh[i] < size && !InLog(l, lh[i])) &&
    forall i, j :: 0 <= i < j < |lh| ==> lh[i] != lh[j]
  }

  ghost predicate GoodHeader(l: Layout, d: Disk)
    requires Fits(l, d)
  {
    HeaderCount(d[l.start]) <= LOGSIZE && GoodList(l, |d|, HeaderList(d[l.start]))
  }

  predicate SameHome(l: Layout, d: Disk, e: Disk) {
    |d| == |e| && forall b :: 0 <= b < |d| && !InLog(l, b) ==> d[b] == e[b]
  }

  /** write_log: copy each logged block from the cache `c` into the log area. */
  function LogWrites(l: Layout, c: Disk, lh: seq<nat>): (r: seq<Write>)
    requires forall i :: 0 <= i < |lh| ==> lh[i] < |c|
    ensures |r| == |lh|
  {
    seq(|lh|, i requires 0 <= i < |lh| => ((l.start + 1 + i) as nat, c[lh[i]]))
  }

  /** install_trans: copy each block of the log area of `d` to its home. */
  function InstallWrites(l: Layout, d: Disk, lh: seq<nat>): (r: seq<Write>)
    requires l.start + |lh| < |d|
    ensures |r| == |lh|
  {
    seq(|lh|, i requires 0 <= i < |lh| => (lh[i], d[l.start + 1 + i]))
  }

  /** The installs of a commit: each logged block to its home, as the cache `c` holds it. */
  function HomeWrites(c: Disk, lh: seq<nat>): (r: seq<Write>)
    requires forall i :: 0 <= i < |lh| ==> lh[i] < |c|
    ensures |r| == |lh|
  {
    seq(|lh|, i requires 0 <= i < |lh| => (lh[i], c[lh[i]]))
  }

  function ClearHeader(b: Block): Block {
    PutWord(b, 0, 0)
  }

  /** The disk writes of commit(), in order, with `c` the cached contents of every block. */
  ghost function CommitWrites(l: Layout, c: Disk, lh: seq<nat>): (r: seq<Write>)
    requires Fits(l, c) && GoodList(l, |c|, lh)
    ensures |r| == if lh == [] then 0 else 2 * |lh| + 2
  {
    if lh == [] then []
    else
      var h := PutHeader(c[l.start], lh);
      LogWrites(l, c, lh) + [(l.start, h)] + HomeWrites(c, lh) + [(l.start, ClearHeader(h))]
  }

  /** The disk writes of recover_from_log() on the disk `d`. */
  ghost function RecoverWrites(l: Layout, d: Disk): (r: seq<Write>)
    requires Fits(l, d) && GoodHeader(l, d)
    ensures |r| == HeaderCount(d[l.start]) + 1
  {
    InstallWrites(l, d, HeaderList(d[l.start])) + [(l.start, ClearHeader(d[l.start]))]
  }

  ghost function Recover(l: Layout, d: Disk): Disk
    requires Fits(l, d) && GoodHeader(l, d)
  {
    Apply(d, RecoverWrites(l, d))
  }

  lemma ClearedHeader(l: Layout, d: Disk, b: Block)
    requires Fits(l, d) && d[l.start] == ClearHeader(b)
    ensures GoodHeader(l, d) && HeaderCount(d[l.start]) == 0
  {
  }

  /** Recovery installs the listed blocks and nothing else outside the log. */
  lemma RecoverAt(l: Layout, d: Disk, b: nat)
    requires Fits(l, d) && GoodHeader(l, d) && b < |d| && !InLog(l, b)
    ensures var lh := HeaderList(d[l.start]);
            (b !in lh ==> Recover(l, d)[b] == d[b]) &&
            forall i :: 0 <= i < |lh| && lh[i] == b ==> Recover(l, d)[b] == d[l.start + 1 + i]
  {
    hide Apply;
    var lh, ws := HeaderList(d[l.start]), RecoverWrites(l, d);
    if i :| 0 <= i < |lh| && lh[i] == b {
      ApplyAt(d, ws, i);
    } else {
      ApplyOther(d, ws, b);
    }
  }

  // ---------------------------------------------------------------- crash atomicity

  /** Recovery interrupted after any number k of its writes and started again ends at the same home blocks. */
  lemma CrashDuringRecovery(l: Layout, d: Disk, k: nat)
    requires Fits(l, d) && GoodHeader(l, d) && k <= |RecoverWrites(l, d)|
    ensures var dk := Apply(d, RecoverWrites(l, d)[..k]);
            GoodHeader(l, dk) && SameHome(l, Recover(l, dk), Recover(l, d))
  {
    hide Apply;
    var ws := RecoverWrites(l, d);
    if k == |ws| {
      assert ws[..k] == ws;
      RecoveredIsClear(l, d);
      ClearRecovers(l, Recover(l, d));
    } else {
      RecoverPrefixAt(l, d, k);
      forall b: nat | b < |d| && !InLog(l, b)
        ensures Recover(l, Apply(d, ws[..k]))[b] == Recover(l, d)[b]
      {
        RecoverAt(l, Apply(d, ws[..k]), b);
        RecoverAt(l, d, b);
      }
    }
  }

  lemma RecoveredIsClear(l: Layout, d: Disk)
    requires Fits(l, d) && GoodHeader(l, d)
    ensures HeaderCount(Recover(l, d)[l.start]) == 0
  {
  }

  /** Before its last write recovery has touched listed home blocks only. */
  lemma RecoverPrefixAt(l: Layout, d: Disk, k: nat)
    requires Fits(l, d) && GoodHeader(l, d) && k < |RecoverWrites(l, d)|
    ensures var dk := Apply(d, RecoverWrites(l, d)[..k]);
            (forall b :: 0 <= b < |d| && b !in HeaderList(d[l.start]) ==> dk[b] == d[b])
  {
    hide Apply;
    var ws := RecoverWrites(l, d)[..k];
    forall b: nat | b < |d| && b !in HeaderList(d[l.start])
      ensures Apply(d, ws)[b] == d[b]
    {
      ApplyOther(d, ws, b);
    }
  }

  /** The disk after the log copies and j of the installs of a commit that has written its header. */
  ghost predicate Installing(l: Layout, d: Disk, c: Disk, lh: seq<nat>, e: Disk)
    requires Fits(l, d) && |c| == |d| && GoodList(l, |d|, lh)
  {
    |e| == |d| && e[l.start] == PutHeader(c[l.start], lh) &&
    (forall i :: 0 <= i < |lh| ==> e[l.start + 1 + i] == c[lh[i]]) &&
    (forall i :: 0 <= i < |lh| ==> e[lh[i]] == c[lh[i]] || e[lh[i]] == d[lh[i]]) &&
    forall b :: 0 <= b < |d| && !InLog(l, b) && b !in lh ==> e[b] == d[b]
  }

  lemma LogCopies(l: Layout, d: Disk, c: Disk, lh: seq<nat>, k: nat)
    requires Fits(l, d) && |c| == |d| && GoodList(l, |d|, lh) && k <= |lh|
    ensures var e := Apply(d, LogWrites(l, c, lh)[..k]);
            (forall b :: 0 <= b < |d| && (!InLog(l, b) || b == l.start) ==> e[b] == d[b]) &&
            forall i :: 0 <= i < k ==> e[l.start + 1 + i] == c[lh[i]]
  {
    hide Apply;
    var ws := LogWrites(l, c, lh)[..k];
    var e := Apply(d, ws);
    assert forall i :: 0 <= i < |ws| ==> ws[i] == (l.start + 1 + i, c[lh[i]]);
    forall b: nat | b < |d| && (!InLog(l, b) || b == l.start)
      ensures e[b] == d[b]
    {
      ApplyOther(d, ws, b);
    }
    forall i: nat | i < k
      ensures e[l.start + 1 + i] == c[lh[i]]
    {
      ApplyAt(d, ws, i);
    }
  }

  lemma Installs(l: Layout, d: Disk, c: Disk, lh: seq<nat>, j: nat)
    requires Fits(l, d) && |c| == |d| && GoodList(l, |d|, lh) && j <= |lh|
    ensures var e := Apply(d, HomeWrites(c, lh)[..j]);
            (forall i :: 0 <= i < j ==> e[lh[i]] == c[lh[i]]) &&
            (forall i :: j <= i < |lh| ==> e[lh[i]] == d[lh[i]]) &&
            forall b :: 0 <= b < |d| && b !in lh ==> e[b] == d[b]
  {
    hide Apply;
    var ws := HomeWrites(c, lh)[..j];
    forall i: nat | i < j
      ensures Apply(d, ws)[lh[i]] == c[lh[i]]
    {
      ApplyAt(d, ws, i);
    }
    forall i: nat | j <= i < |lh|
      ensures Apply(d, ws)[lh[i]] == d[lh[i]]
    {
      ApplyOther(d, ws, lh[i]);
    }
    forall b: nat | b < |d| && b !in lh
      ensures Apply(d, ws)[b] == d[b]
    {
      ApplyOther(d, ws, b);
    }
  }

  lemma InstallsInstalling(l: Layout, d: Disk, c: Disk, lh: seq<nat>, d1: Disk, j: nat)
    requires Fits(l, d) && |c| == |d| && GoodList(l, |d|, lh) && j <= |lh|
    requires |d1| == |d| && d1[l.start] == PutHeader(c[l.start], lh)
    requires forall b :: 0 <= b < |d| && !InLog(l, b) ==> d1[b] == d[b]
    requires forall i :: 0 <= i < |lh| ==> d1[l.start + 1 + i] == c[lh[i]]
    ensures Installing(l, d, c, lh, Apply(d1, HomeWrites(c, lh)[..j]))
    ensures j == |lh| ==> forall i :: 0 <= i < j ==> Apply(d1, HomeWrites(c, lh)[..j])[lh[i]] == c[lh[i]]
  {
    hide Apply;
    Installs(l, d1, c, lh, j);
    assert forall b :: InLog(l, b) ==> b !in lh;
  }

  lemma CommitPrefix(l: Layout, c: Disk, lh: seq<nat>, k: nat)
    requires Fits(l, c) && GoodList(l, |c|, lh) && |lh| < k < |CommitWrites(l, c, lh)|
    ensures CommitWrites(l, c, lh)[..k] ==
            (LogWrites(l, c, lh) + [(l.start, PutHeader(c[l.start], lh))]) + HomeWrites(c, lh)[..k - |lh| - 1]
  {
  }

  lemma CommitPrefixApplied(l: Layout, d: Disk, c: Disk, lh: seq<nat>, k: nat)
    requires Fits(l, d) && |c| == |d| && GoodList(l, |d|, lh) && |lh| < k < |CommitWrites(l, c, lh)|
    ensures Apply(d, CommitWrites(l, c, lh)[..k]) ==
            Apply(Apply(d, LogWrites(l, c, lh))[l.start := PutHeader(c[l.start], lh)],
              HomeWrites(c, lh)[..k - |lh| - 1])
  {
    hide CommitWrites, LogWrites, HomeWrites, Apply, PutHeader;
    var a, h := LogWrites(l, c, lh), PutHeader(c[l.start], lh);
    CommitPrefix(l, c, lh, k);
    ApplyAppend(d, a + [(l.start, h)], HomeWrites(c, lh)[..k - |lh| - 1]);
    ApplyAppend(d, a, [(l.start, h)]);
    ApplyOne(Apply(d, a), (l.start, h));
  }

  lemma CommitInstalling(l: Layout, d: Disk, c: Disk, lh: seq<nat>, k: nat)
    requires Fits(l, d) && |c| == |d| && GoodList(l, |d|, lh) && |lh| < k < |CommitWrites(l, c, lh)|
    ensures var e := Apply(d, CommitWrites(l, c, lh)[..k]);
            Installing(l, d, c, lh, e) && (k == 2 * |lh| + 1 ==> forall i :: 0 <= i < |lh| ==> e[lh[i]] == c[lh[i]])
  {
    hide Apply;
    hide CommitWrites, HomeWrites, PutHeader;
    var a, h := LogWrites(l, c, lh), PutHeader(c[l.start], lh);
    CommitPrefixApplied(l, d, c, lh, k);
    assert a[..|lh|] == a;
    LogCopies(l, d, c, lh, |lh|);
    InstallsInstalling(l, d, c, lh, Apply(d, a)[l.start := h], k - |lh| - 1);
  }

  lemma InstallingRecovers(l: Layout, d: Disk, c: Disk, lh: seq<nat>, e: Disk)
    requires Fits(l, d) && |c| == |d| && GoodList(l, |d|, lh) && Installing(l, d, c, lh, e)
    requires forall b :: 0 <= b < |d| && !InLog(l, b) && b !in lh ==> c[b] == d[b]
    ensures GoodHeader(l, e) && SameHome(l, Recover(l, e), c)
  {
    hide Apply, PutHeader;
    HeaderRoundTrip(c[l.start], lh);
    forall b: nat | b < |d| && !InLog(l, b)
      ensures Recover(l, e)[b] == c[b]
    {
      RecoverAt(l, e, b);
    }
  }

  lemma ClearRecovers(l: Layout, d: Disk)
    requires Fits(l, d) && HeaderCount(d[l.start]) == 0
    ensures GoodHeader(l, d) && SameHome(l, Recover(l, d), d)
  {
    hide Apply;
    forall b: nat | b < |d| && !InLog(l, b)
      ensures Recover(l, d)[b] == d[b]
    {
      RecoverAt(l, d, b);
    }
  }

  lemma CommitDone(l: Layout, d: Disk, c: Disk, lh: seq<nat>)
    requires Fits(l, d) && |c| == |d| && GoodList(l, |d|, lh)
    requires HeaderCount(d[l.start]) == 0
    requires forall b :: 0 <= b < |d| && !InLog(l, b) && b !in lh ==> c[b] == d[b]
    ensures var dk := Apply(d, CommitWrites(l, c, lh)); HeaderCount(dk[l.start]) == 0 && SameHome(l, dk, c)
  {
    if lh != [] {
      var cw := CommitWrites(l, c, lh);
      CommitInstalling(l, d, c, lh, |cw| - 1);
      var dk, e := Apply(d, cw), Apply(d, cw[..|cw| - 1]);
      assert dk == e[l.start := ClearHeader(PutHeader(c[l.start], lh))];
      ClearedHeader(l, dk, PutHeader(c[l.start], lh));
    }
  }

  /** A crash after any number k of the disk writes of commit() recovers to exactly the old home blocks
      while the header is not written, and to exactly the cached ones from then on. */
  lemma CrashDuringCommit(l: Layout, d: Disk, c: Disk, lh: seq<nat>, k: nat)
    requires Fits(l, d) && |c| == |d| && GoodList(l, |d|, lh) && k <= |CommitWrites(l, c, lh)|
    requires HeaderCount(d[l.start]) == 0
    requires forall b :: 0 <= b < |d| && !InLog(l, b) && b !in lh ==> c[b] == d[b]
    ensures var dk := Apply(d, CommitWrites(l, c, lh)[..k]);
            GoodHeader(l, dk) && SameHome(l, Recover(l, dk), if k <= |lh| then d else c)
  {
    hide Apply;
    var cw := CommitWrites(l, c, lh);
    var dk := Apply(d, cw[..k]);
    if k <= |lh| {
      assert cw[..k] == LogWrites(l, c, lh)[..k];
      LogCopies(l, d, c, lh, k);
      ClearRecovers(l, dk);
    } else if k < |cw| {
      CommitInstalling(l, d, c, lh, k);
      InstallingRecovers(l, d, c, lh, dk);
    } else {
      assert cw[..k] == cw;
      CommitDone(l, d, c, lh);
      ClearRecovers(l, dk);
    }
  }

  /** Block b is listed in the header on the disk with these contents in the log area. */
  ghost predicate Durable(l: Layout, d: Disk, w: Write) {
    Fits(l, d) && GoodHeader(l, d) &&
    var listed := HeaderList(d[l.start]);
    exists i :: 0 <= i < |listed| && listed[i] == w.0 && d[l.start + 1 + i] == w.1
  }

  /** A commit writes the log area, or a home block to what the cache already holds. */
  lemma CommitWriteTarget(l: Layout, c: Disk, lh: seq<nat>, k: nat)
    requires Fits(l, c) && GoodList(l, |c|, lh) && k < |CommitWrites(l, c, lh)|
    ensures var w := CommitWrites(l, c, lh)[k];
            w.0 < |c| &&
            (InLog(l, w.0) || (|lh| < k <= 2 * |lh| && w == (lh[k - |lh| - 1], c[lh[k - |lh| - 1]])))
  {
  }

  lemma InstallingDurable(l: Layout, d: Disk, c: Disk, lh: seq<nat>, e: Disk, i: nat)
    requires Fits(l, d) && |c| == |d| && GoodList(l, |d|, lh) && Installing(l, d, c, lh, e) && i < |lh|
    ensures Durable(l, e, (lh[i], c[lh[i]]))
  {
    hide PutHeader, HeaderCount, HeaderList;
    HeaderRoundTrip(c[l.start], lh);
    assert HeaderList(e[l.start])[i] == lh[i] && e[l.start + 1 + i] == c[lh[i]];
  }

  /** A commit writes a home block only after the header and the log area hold that very write. */
  lemma CommitHeaderFirst(l: Layout, d: Disk, c: Disk, lh: seq<nat>, k: nat)
    requires Fits(l, d) && |c| == |d| && GoodList(l, |d|, lh) && k < |CommitWrites(l, c, lh)|
    requires !InLog(l, CommitWrites(l, c, lh)[k].0)
    ensures Durable(l, Apply(d, CommitWrites(l, c, lh)[..k]), CommitWrites(l, c, lh)[k])
  {
    hide Apply, CommitWrites, Installing, Durable, GoodList;
    CommitWriteTarget(l, c, lh, k);
    CommitInstalling(l, d, c, lh, k);
    InstallingDurable(l, d, c, lh, Apply(d, CommitWrites(l, c, lh)[..k]), k - |lh| - 1);
  }

  lemma LogWritesKeepHome(l: Layout, c: Disk, lh: seq<nat>, k: nat, b: nat)
    requires Fits(l, c) && GoodList(l, |c|, lh) && b < |c| && !InLog(l, b) && k <= |lh|
    ensures Apply(c, LogWrites(l, c, lh)[..k])[b] == c[b]
  {
    hide Apply;
    var ws := LogWrites(l, c, lh)[..k];
    forall i | 0 <= i < k
      ensures ws[i].0 != b
    {
      assert InLog(l, ws[i].0);
    }
    ApplyOther(c, ws, b);
  }

  /** One more log copy: it reads a home block no earlier copy has touched. */
  lemma LogWritesStep(l: Layout, c: Disk, lh: seq<nat>, k: nat)
    requires Fits(l, c) && GoodList(l, |c|, lh) && k < |lh|
    ensures var ws := LogWrites(l, c, lh);
            ws[..k + 1] == ws[..k] + [ws[k]] && ws[k] == (l.start + k + 1, c[lh[k]]) &&
            Apply(c, ws[..k])[lh[k]] == c[lh[k]]
  {
    hide Apply;
    LogWritesKeepHome(l, c, lh, k, lh[k]);
  }

  lemma InstallKeepsLog(l: Layout, c: Disk, lh: seq<nat>, k: nat, b: nat)
    requires Fits(l, c) && GoodList(l, |c|, lh) && InLog(l, b) && k <= |lh|
    ensures Apply(c, InstallWrites(l, c, lh)[..k])[b] == c[b]
  {
    hide Apply;
    var ws := InstallWrites(l, c, lh)[..k];
    forall i | 0 <= i < k
      ensures ws[i].0 != b
    {
      assert ws[i].0 == lh[i] && !InLog(l, lh[i]);
    }
    ApplyOther(c, ws, b);
  }

  /** One more install: it reads a log block no earlier install has touched. */
  lemma InstallWritesStep(l: Layout, c: Disk, lh: seq<nat>, k: nat)
    requires Fits(l, c) && GoodList(l, |c|, lh) && k < |lh|
    ensures var ws := InstallWrites(l, c, lh);
            ws[..k + 1] == ws[..k] + [ws[k]] && ws[k] == (lh[k], c[l.start + k + 1]) &&
            Apply(c, ws[..k])[l.start + k + 1] == c[l.start + k + 1]
  {
    hide Apply;
    InstallKeepsLog(l, c, lh, k, l.start + k + 1);
  }

  lemma CommitNothing(l: Layout, d: Disk, c: Disk)
    requires Fits(l, c)
    ensures CommitWrites(l, c, []) == [] && Apply(d, []) == d
  {
  }

  /** With the logged blocks copied into the log area, the installs are the cached blocks. */
  lemma InstallsCached(l: Layout, c: Disk, c2: Disk, lh: seq<nat>)
    requires Fits(l, c) && |c2| == |c| && GoodList(l, |c|, lh)
    requires forall i :: 0 <= i < |lh| ==> c2[l.start + 1 + i] == c[lh[i]]
    ensures InstallWrites(l, c2, lh) == HomeWrites(c, lh)
  {
  }

  lemma InstallsKeepHeader(l: Layout, c: Disk, lh: seq<nat>, h: Block)
    requires Fits(l, c) && GoodList(l, |c|, lh) && c[l.start] == h
    ensures PutHeader(Apply(c, InstallWrites(l, c, lh))[l.start], []) == ClearHeader(h)
  {
    var iw := InstallWrites(l, c, lh);
    InstallKeepsLog(l, c, lh, |lh|, l.start);
    assert iw[..|lh|] == iw;
  }

  /** The writes of write_log, write_head, install_trans and the clearing write_head, each computed from what
      the cache holds when it runs, are the writes of commit(). */
  lemma CommitChain(l: Layout, c: Disk, lh: seq<nat>)
    requires Fits(l, c) && GoodList(l, |c|, lh) && lh != []
    ensures var lw := LogWrites(l, c, lh);
            var c1 := Apply(c, lw);
            var h := PutHeader(c1[l.start], lh);
            var c2 := c1[l.start := h];
            var iw := InstallWrites(l, c2, lh);
            var c3 := Apply(c2, iw);
            CommitWrites(l, c, lh) == lw + [(l.start, h)] + iw + [(l.start, PutHeader(c3[l.start], []))]
  {
    hide Apply, PutHeader, HomeWrites, InstallWrites;
    var lw := LogWrites(l, c, lh);
    var c1 := Apply(c, lw);
    assert lw[..|lh|] == lw;
    LogCopies(l, c, c, lh, |lh|);
    var h := PutHeader(c1[l.start], lh);
    var c2 := c1[l.start := h];
    InstallsCached(l, c, c2, lh);
    InstallsKeepHeader(l, c2, lh, h);
  }

  lemma InstalledHome(l: Layout, c: Disk, lh: seq<nat>, e: Disk)
    requires Fits(l, c) && GoodList(l, |c|, lh) && Installing(l, c, c, lh, e)
    ensures SameHome(l, e, c)
  {
  }

  /** commit() leaves every home block as the cache had it. */
  lemma CommitKeepsHome(l: Layout, c: Disk, lh: seq<nat>)
    requires Fits(l, c) && GoodList(l, |c|, lh)
    ensures SameHome(l, Apply(c, CommitWrites(l, c, lh)), c)
  {
    hide Installing, HomeWrites, LogWrites, PutHeader;
    if lh != [] {
      var cw := CommitWrites(l, c, lh);
      CommitInstalling(l, c, c, lh, |cw| - 1);
      InstalledHome(l, c, lh, Apply(c, cw[..|cw| - 1]));
    }
  }

  lemma RecoverChain(l: Layout, d: Disk)
    requires Fits(l, d) && GoodHeader(l, d)
    ensures var iw := InstallWrites(l, d, HeaderList(d[l.start]));
            RecoverWrites(l, d) == iw + [(l.start, PutHeader(Apply(d, iw)[l.start], []))]
  {
    InstallsKeepHeader(l, d, HeaderList(d[l.start]), d[l.start]);
  }
}
