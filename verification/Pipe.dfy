/** pipe.c: the ring buffer with its wrapping counters. */
module Pipe {
  import opened Basics

  const PIPESIZE: nat := 512
  const UINT: nat := 0x1_0000_0000

  /** How a stretch of pipewrite or piperead under the lock ends: by returning, with -1 or not, or by sleeping. */
  datatype Outcome = Returns | Fails | Sleeps

  function Min(a: nat, b: nat): nat {
    if a < b then a else b
  }

  /** pipewrite from where it has the lock, with `rest` still to write: how many bytes go in, and how the stretch
      ends. */
  function WriteCount(pending: nat, rest: seq<byte>): nat {
    Min(|rest|, PIPESIZE - Min(pending, PIPESIZE))
  }

  function WriteEnd(pending: nat, rest: seq<byte>, readopen: bool, killed: bool): Outcome {
    if WriteCount(pending, rest) == |rest| then Returns else if !readopen || killed then Fails else Sleeps
  }

  function ReadEnd(pending: nat, writeopen: bool, killed: bool): Outcome {
    if pending > 0 || !writeopen then Returns else if killed then Fails else Sleeps
  }

  /** Where byte k after the read position is; the 32-bit counters may wrap because PIPESIZE divides their range. */
  function Index(nread: nat, k: nat): (i: nat)
    ensures i < PIPESIZE
  {
    (nread + k) % UINT % PIPESIZE
  }

  function Slot(data: seq<byte>, nread: nat, k: nat): byte
    requires |data| == PIPESIZE
  {
    data[Index(nread, k)]
  }

  lemma IndexApart(nread: nat, j: nat, k: nat)
    requires j < k < j + PIPESIZE
    ensures Index(nread, j) != Index(nread, k)
  {
  }

  lemma PutSlots(data: seq<byte>, nread: nat, nwrite: nat, n: nat, c: byte)
    requires |data| == PIPESIZE && n < PIPESIZE && nread < UINT && nwrite == (nread + n) % UINT
    ensures (nwrite + 1) % UINT == (nread + n + 1) % UINT
    ensures forall k: nat :: k <= n ==> Slot(data[nwrite % PIPESIZE := c], nread, k) == if k == n then c
            else Slot(data, nread, k)
  {
    var data' := data[nwrite % PIPESIZE := c];
    forall k: nat | k <= n
      ensures Slot(data', nread, k) == if k == n then c else Slot(data, nread, k)
    {
      if k < n {
        IndexApart(nread, k, n);
      }
    }
  }

  lemma GetSlot(data: seq<byte>, nread: nat, n: nat, k: nat)
    requires |data| == PIPESIZE && k + 1 < n && nread < UINT
    ensures Slot(data, (nread + 1) % UINT, k) == Slot(data, nread, k + 1)
  {
  }

  lemma FirstSlot(data: seq<byte>, nread: nat)
    requires |data| == PIPESIZE && nread < UINT
    ensures Slot(data, nread, 0) == data[nread % PIPESIZE]
  {
  }

  lemma CountersAfterGet(nread: nat, n: nat)
    requires 0 < n && nread < UINT
    ensures (nread + n) % UINT == ((nread + 1) % UINT + (n - 1)) % UINT
  {
  }

  lemma FullIff(nread: nat, nwrite: nat, n: nat)
    requires nread < UINT && n <= PIPESIZE && nwrite == (nread + n) % UINT
    ensures nwrite == (nread + PIPESIZE) % UINT <==> n == PIPESIZE
  {
  }

  lemma EmptyIff(nread: nat, nwrite: nat, n: nat)
    requires nread < UINT && n <= PIPESIZE && nwrite == (nread + n) % UINT
    ensures nread == nwrite <==> n == 0
  {
  }

  // ---------------------------------------------------------------- the code

  class Ring {
    const data: array<byte>
    var nread: nat
    var nwrite: nat
    var readopen: bool
    var writeopen: bool
    ghost var pending: seq<byte> // written and not yet read

    /** The counters have wrapped any number of times; their difference and the buffer are what counts. */
    ghost predicate Valid()
      reads this, data
    {
      data.Length == PIPESIZE && nread < UINT && nwrite < UINT && |pending| <= PIPESIZE &&
      nwrite == (nread + |pending|) % UINT &&
      forall k: nat :: k < |pending| ==> Slot(data[..], nread, k) == pending[k]
    }

    constructor ()
      ensures Valid() && pending == [] && readopen && writeopen && fresh(data)
    {
      data := new byte[PIPESIZE](i => 0);
      nread, nwrite, readopen, writeopen := 0, 0, true, true;
      pending := [];
    }

    /** One byte in at the write counter, when there is room. */
    method Put(c: byte)
      requires Valid() && |pending| < PIPESIZE
      modifies data, this`nwrite, this`pending
      ensures Valid() && pending == old(pending) + [c]
    {
      ghost var before := data[..];
      PutSlots(before, nread, nwrite, |pending|, c);
      data[nwrite % PIPESIZE] := c;
      nwrite := (nwrite + 1) % UINT;
      pending := pending + [c];
      assert data[..] == before[old(nwrite) % PIPESIZE := c];
    }

    /** One byte out at the read counter, when there is one. */
    method Get() returns (c: byte)
      requires Valid() && pending != []
      modifies this`nread, this`pending
      ensures Valid() && [c] + pending == old(pending)
    {
      hide Index;
      FirstSlot(data[..], nread);
      assert Slot(data[..], nread, 0) == pending[0];
      CountersAfterGet(nread, |pending|);
      ghost var all := pending;
      c := data[nread % PIPESIZE];
      pending := pending[1..];
      forall k: nat | k < |pending|
        ensures Slot(data[..], (nread + 1) % UINT, k) == pending[k]
      {
        GetSlot(data[..], nread, |all|, k);
        assert Slot(data[..], nread, k + 1) == all[k + 1];
      }
      nread := (nread + 1) % UINT;
    }

    /** pipewrite from byte i on, until it returns or sleeps; `wake` says that the readers are woken. */
    method Write(addr: seq<byte>, i: nat, killed: bool) returns (i': nat, end: Outcome, wake: bool)
      requires Valid() && i <= |addr|
      modifies data, this`nwrite, this`pending
      ensures Valid() && i <= i' <= |addr| && pending == old(pending) + addr[i..i']
      ensures i' - i == WriteCount(|old(pending)|, addr[i..]) &&
              end == WriteEnd(|old(pending)|, addr[i..], readopen, killed)
      ensures end.Returns? <==> i' == |addr|
      ensures !end.Returns? ==> |pending| == PIPESIZE && (end.Fails? <==> !readopen || killed)
      ensures wake <==> !end.Fails?
    {
      i' := i;
      while i' < |addr|
        invariant Valid() && i <= i' <= |addr| && pending == old(pending) + addr[i..i']
      {
        FullIff(nread, nwrite, |pending|);
        if nwrite == (nread + PIPESIZE) % UINT {
          if !readopen || killed {
            return i', Fails, false;
          }
          return i', Sleeps, true;
        }
        Put(addr[i']);
        i' := i' + 1;
      }
      end, wake := Returns, true;
    }

    /** piperead until it returns or sleeps; `wake` says that the writers are woken. */
    method Read(n: nat, killed: bool) returns (addr: seq<byte>, end: Outcome, wake: bool)
      requires Valid()
      modifies this`nread, this`pending
      ensures Valid() && end == ReadEnd(|old(pending)|, writeopen, killed) && (wake <==> end.Returns?)
      ensures addr + pending == old(pending) && |addr| == if end.Returns? then Min(n, |old(pending)|) else 0
      ensures !end.Returns? <==> old(pending) == [] && writeopen
      ensures !end.Returns? ==> (end.Fails? <==> killed)
    {
      hide Index, Slot;
      addr := [];
      EmptyIff(nread, nwrite, |pending|);
      if nread == nwrite && writeopen {
        end := if killed then Fails else Sleeps;
        return [], end, false;
      }
      var i := 0;
      while i < n
        invariant i == |addr| <= n && Valid() && addr + pending == old(pending)
      {
        EmptyIff(nread, nwrite, |pending|);
        if nread == nwrite {
          break;
        }
        var c := Get();
        addr := addr + [c];
        i := i + 1;
      }
      end, wake := Returns, true;
    }

    /** pipeclose: `gone` says that both ends are closed and the pipe is freed. */
    method Close(writable: bool) returns (gone: bool)
      requires Valid()
      modifies this`readopen, this`writeopen
      ensures Valid() && readopen == (old(readopen) && writable) && writeopen == (old(writeopen) && !writable) &&
              gone == (!readopen && !writeopen)
    {
      if writable {
        writeopen := false;
      } else {
        readopen := false;
      }
      gone := !readopen && !writeopen;
    }
  }
}
