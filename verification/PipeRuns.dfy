/** Any number of processes reading and writing one pipe, being killed, and closing its ends, over whole runs. A step is
    what a process does between getting the pipe's lock and giving it up. */
module PipeRuns {
  import opened Basics
  import opened Pipe

  /** What a process does with the pipe: the call it is in, and what pipewrite has still to write. */
  datatype Job = Out | Writing(c: nat, rest: seq<byte>, asleep: bool) | Reading(c: nat, n: nat, asleep: bool)

  datatype Proc = Proc(job: Job, killed: bool)

  /** A byte and the call that wrote or read it. */
  datatype Sent = Sent(call: nat, b: byte)

  /** The pipe and its processes. The rest is for the record: what each call of pipewrite was given and how it ended,
      how many bytes each call of piperead asked for and how it ended, and all bytes written and read. */
  datatype Sys = Sys(proc: seq<Proc>, pending: seq<byte>, readopen: bool, writeopen: bool,
                     wcalls: seq<seq<byte>>, wends: map<nat, Outcome>, rcalls: seq<nat>, rends: map<nat, Outcome>,
                     written: seq<Sent>, read: seq<Sent>)

  datatype Action =
    | CallWrite(p: nat, addr: seq<byte>)
    | CallRead(p: nat, n: nat)
    | Run(p: nat)
    | Kill(p: nat)
    | CloseRead
    | CloseWrite

  /** An end is closed by the last descriptor, so not while a process is in a call on it. */
  predicate Enabled(s: Sys, a: Action) {
    match a
    case CallWrite(p, addr) => p < |s.proc| && s.proc[p].job.Out? && s.writeopen
    case CallRead(p, n) => p < |s.proc| && s.proc[p].job.Out? && s.readopen
    case Run(p) => p < |s.proc| && !s.proc[p].job.Out? && !s.proc[p].job.asleep
    case Kill(p) => p < |s.proc|
    case CloseRead => s.readopen && forall p :: 0 <= p < |s.proc| ==> !s.proc[p].job.Reading?
    case CloseWrite => s.writeopen && forall p :: 0 <= p < |s.proc| ==> !s.proc[p].job.Writing?
  }

  function WakeReader(e: Proc): Proc {
    if e.job.Reading? then e.(job := Reading(e.job.c, e.job.n, false)) else e
  }

  function WakeWriter(e: Proc): Proc {
    if e.job.Writing? then e.(job := Writing(e.job.c, e.job.rest, false)) else e
  }

  function WakeReaders(proc: seq<Proc>): (r: seq<Proc>)
    ensures |r| == |proc| && forall p :: 0 <= p < |proc| ==> r[p] == WakeReader(proc[p])
  {
    seq(|proc|, p requires 0 <= p < |proc| => WakeReader(proc[p]))
  }

  function WakeWriters(proc: seq<Proc>): (r: seq<Proc>)
    ensures |r| == |proc| && forall p :: 0 <= p < |proc| ==> r[p] == WakeWriter(proc[p])
  {
    seq(|proc|, p requires 0 <= p < |proc| => WakeWriter(proc[p]))
  }

  function WithJob(s: Sys, p: nat, job: Job): seq<Proc>
    requires p < |s.proc|
  {
    s.proc[p := s.proc[p].(job := job)]
  }

  function Tagged(c: nat, bytes: seq<byte>): (r: seq<Sent>)
    ensures |r| == |bytes|
  {
    seq(|bytes|, i requires 0 <= i < |bytes| => Sent(c, bytes[i]))
  }

  function RunWriter(s: Sys, p: nat): Sys
    requires p < |s.proc| && s.proc[p].job.Writing?
  {
    var c, rest := s.proc[p].job.c, s.proc[p].job.rest;
    var k := WriteCount(|s.pending|, rest);
    var end := WriteEnd(|s.pending|, rest, s.readopen, s.proc[p].killed);
    var proc := WithJob(s, p, if end.Sleeps? then Writing(c, rest[k..], true) else Out);
    s.(proc := if end.Fails? then proc else WakeReaders(proc), pending := s.pending + rest[..k],
       wends := if end.Sleeps? then s.wends else s.wends[c := end], written := s.written + Tagged(c, rest[..k]))
  }

  function RunReader(s: Sys, p: nat): Sys
    requires p < |s.proc| && s.proc[p].job.Reading?
  {
    var c, n := s.proc[p].job.c, s.proc[p].job.n;
    match ReadEnd(|s.pending|, s.writeopen, s.proc[p].killed)
    case Sleeps => s.(proc := WithJob(s, p, Reading(c, n, true)))
    case Fails => s.(proc := WithJob(s, p, Out), rends := s.rends[c := Fails])
    case Returns =>
      var k := Min(n, |s.pending|);
      s.(proc := WakeWriters(WithJob(s, p, Out)), pending := s.pending[k..], rends := s.rends[c := Returns],
         read := s.read + Tagged(c, s.pending[..k]))
  }

  function Apply(s: Sys, a: Action): Sys
    requires Enabled(s, a)
  {
    match a
    case CallWrite(p, addr) =>
      s.(proc := WithJob(s, p, Writing(|s.wcalls|, addr, false)), wcalls := s.wcalls + [addr])
    case CallRead(p, n) => s.(proc := WithJob(s, p, Reading(|s.rcalls|, n, false)), rcalls := s.rcalls + [n])
    case Run(p) => if s.proc[p].job.Writing? then RunWriter(s, p) else RunReader(s, p)
    case Kill(p) => s.(proc := s.proc[p := WakeReader(WakeWriter(s.proc[p])).(killed := true)])
    case CloseRead => s.(readopen := false, proc := WakeWriters(s.proc))
    case CloseWrite => s.(writeopen := false, proc := WakeReaders(s.proc))
  }

  ghost predicate Init(s: Sys) {
    s.pending == [] && s.written == s.read == [] && s.wcalls == [] && s.rcalls == [] && s.wends == s.rends == map[] &&
    s.readopen && s.writeopen && forall p :: 0 <= p < |s.proc| ==> s.proc[p] == Proc(Out, false)
  }

  ghost predicate Follows(run: seq<Sys>, acts: seq<Action>) {
    |run| == |acts| + 1 && forall i :: 0 <= i < |acts| ==> StepAt(run, acts, i)
  }

  ghost predicate IsRun(run: seq<Sys>, acts: seq<Action>) {
    Follows(run, acts) && Init(run[0])
  }

  ghost predicate StepAt(run: seq<Sys>, acts: seq<Action>, i: nat)
    requires i < |acts| && |run| == |acts| + 1
  {
    Enabled(run[i], acts[i]) && run[i + 1] == Apply(run[i], acts[i])
  }

  // ---------------------------------------------------------------- the bytes of one call

  function Bytes(s: seq<Sent>): (r: seq<byte>)
    ensures |r| == |s|
  {
    seq(|s|, i requires 0 <= i < |s| => s[i].b)
  }

  /** The bytes of call c, in order. */
  function Of(s: seq<Sent>, c: nat): seq<byte> {
    if s == [] then []
    else Of(s[..|s| - 1], c) + if s[|s| - 1].call == c then [s[|s| - 1].b] else []
  }

  lemma {:induction false} OfTagged(s: seq<Sent>, c: nat, bytes: seq<byte>, d: nat)
    ensures Of(s + Tagged(c, bytes), d) == Of(s, d) + if d == c then bytes else []
    decreases |bytes|
  {
    var n := |bytes|;
    if n == 0 {
      assert s + Tagged(c, bytes) == s;
    } else {
      OfTagged(s, c, bytes[..n - 1], d);
      var all := s + Tagged(c, bytes);
      assert all[..|all| - 1] == s + Tagged(c, bytes[..n - 1]);
      assert bytes == bytes[..n - 1] + [bytes[n - 1]];
    }
  }

  lemma BytesTagged(s: seq<Sent>, c: nat, bytes: seq<byte>)
    ensures Bytes(s + Tagged(c, bytes)) == Bytes(s) + bytes
  {
  }

  lemma {:induction false} OfNone(s: seq<Sent>, c: nat)
    requires forall i :: 0 <= i < |s| ==> s[i].call < c
    ensures Of(s, c) == []
  {
    if s != [] {
      OfNone(s[..|s| - 1], c);
    }
  }

  // ---------------------------------------------------------------- invariants

  predicate Inside(s: Sys, e: Proc) {
    (e.job.Writing? ==> s.writeopen) && (e.job.Reading? ==> s.readopen) &&
    (e.job.Writing? && e.job.asleep ==> |s.pending| == PIPESIZE && s.readopen && !e.killed && e.job.rest != []) &&
    (e.job.Reading? && e.job.asleep ==> s.writeopen && !e.killed)
  }

  ghost predicate Inv(s: Sys) {
    Bytes(s.read) + s.pending == Bytes(s.written) && |s.pending| <= PIPESIZE &&
    forall p :: 0 <= p < |s.proc| ==> Inside(s, s.proc[p])
  }

  /** A process in a call is in one that was made and has not ended, and has still to write what is missing. */
  ghost predicate JobOk(s: Sys, e: Proc) {
    (e.job.Writing? ==>
      e.job.c < |s.wcalls| && e.job.c !in s.wends && Of(s.written, e.job.c) + e.job.rest == s.wcalls[e.job.c]) &&
    (e.job.Reading? ==>
      e.job.c < |s.rcalls| && e.job.c !in s.rends && Of(s.read, e.job.c) == [] && e.job.n == s.rcalls[e.job.c])
  }

  ghost predicate SameCall(d: Proc, e: Proc) {
    (d.job.Writing? && e.job.Writing? && d.job.c == e.job.c) || (d.job.Reading? && e.job.Reading? && d.job.c == e.job.c)
  }

  ghost predicate InWrite(s: Sys, c: nat) {
    exists p :: 0 <= p < |s.proc| && s.proc[p].job.Writing? && s.proc[p].job.c == c
  }

  /** A call of pipewrite that has returned has put in all it was given, one that has failed not, and one that has not
      ended still has its process. */
  ghost predicate WriteOk(s: Sys, c: nat)
    requires c < |s.wcalls|
  {
    Of(s.written, c) <= s.wcalls[c] &&
    if c in s.wends then !s.wends[c].Sleeps? && (s.wends[c].Returns? <==> Of(s.written, c) == s.wcalls[c])
    else InWrite(s, c)
  }

  /** A call of piperead that has returned without a byte though it asked for one has seen the end of the file: all
      that was ever written has been read, and the writing end is closed. */
  ghost predicate ReadOk(s: Sys, c: nat)
    requires c < |s.rcalls|
  {
    |Of(s.read, c)| <= s.rcalls[c] &&
    (c in s.rends && s.rends[c].Returns? && s.rcalls[c] > 0 && Of(s.read, c) == [] ==>
      !s.writeopen && s.pending == []) &&
    (c in s.rends && !s.rends[c].Returns? ==> Of(s.read, c) == [])
  }

  ghost predicate Calls(s: Sys) {
    (forall i :: 0 <= i < |s.written| ==> s.written[i].call < |s.wcalls|) &&
    (forall i :: 0 <= i < |s.read| ==> s.read[i].call < |s.rcalls|) &&
    (forall c :: c in s.wends ==> c < |s.wcalls|) && (forall c :: c in s.rends ==> c < |s.rcalls|) &&
    (forall p :: 0 <= p < |s.proc| ==> JobOk(s, s.proc[p])) &&
    (forall p, q :: 0 <= p < q < |s.proc| ==> !SameCall(s.proc[p], s.proc[q])) &&
    (forall c: nat :: c < |s.wcalls| ==> WriteOk(s, c)) && forall c: nat :: c < |s.rcalls| ==> ReadOk(s, c)
  }

  lemma StepInv(s: Sys, a: Action)
    requires Inv(s) && Enabled(s, a)
    ensures Inv(Apply(s, a))
  {
    hide Tagged, Bytes;
    BytesStep(s, a);
    var s' := Apply(s, a);
    forall p | 0 <= p < |s'.proc|
      ensures Inside(s', s'.proc[p])
    {
      assert Inside(s, s.proc[p]);
    }
  }

  lemma BytesStep(s: Sys, a: Action)
    requires Inv(s) && Enabled(s, a)
    ensures var s' := Apply(s, a); Bytes(s'.read) + s'.pending == Bytes(s'.written) && |s'.pending| <= PIPESIZE
  {
    hide Tagged, Bytes, Inside;
    if a.Run? {
      var job := s.proc[a.p].job;
      if job.Writing? {
        var k := WriteCount(|s.pending|, job.rest);
        BytesTagged(s.written, job.c, job.rest[..k]);
        assert Bytes(s.read) + (s.pending + job.rest[..k]) == (Bytes(s.read) + s.pending) + job.rest[..k];
      } else {
        var k := Min(job.n, |s.pending|);
        BytesTagged(s.read, job.c, s.pending[..k]);
        assert (Bytes(s.read) + s.pending[..k]) + s.pending[k..] == Bytes(s.read) + s.pending;
      }
    }
  }

  /** What a step does to the bytes of one call. */
  lemma OfStep(s: Sys, a: Action, d: nat)
    requires Enabled(s, a)
    ensures var s' := Apply(s, a);
            Of(s'.written, d) == Of(s.written, d) +
              (if a.Run? && s.proc[a.p].job.Writing? && d == s.proc[a.p].job.c
               then s.proc[a.p].job.rest[..WriteCount(|s.pending|, s.proc[a.p].job.rest)] else []) &&
            Of(s'.read, d) == Of(s.read, d) +
              (if a.Run? && s.proc[a.p].job.Reading? && d == s.proc[a.p].job.c &&
                  ReadEnd(|s.pending|, s.writeopen, s.proc[a.p].killed).Returns?
               then s.pending[..Min(s.proc[a.p].job.n, |s.pending|)] else [])
  {
    hide Of;
    if a.Run? {
      var job := s.proc[a.p].job;
      if job.Writing? {
        OfTagged(s.written, job.c, job.rest[..WriteCount(|s.pending|, job.rest)], d);
      } else {
        OfTagged(s.read, job.c, s.pending[..Min(job.n, |s.pending|)], d);
      }
    }
  }

  predicate Touches(a: Action, p: nat) {
    (a.CallWrite? || a.CallRead? || a.Run?) && a.p == p
  }

  /** The same call at the same point, awake or asleep. */
  predicate SameJob(d: Job, e: Job) {
    match d
    case Out => e.Out?
    case Writing(c, rest, _) => e.Writing? && e.c == c && e.rest == rest
    case Reading(c, n, _) => e.Reading? && e.c == c && e.n == n
  }

  lemma UntouchedJob(s: Sys, a: Action, p: nat)
    requires Enabled(s, a) && p < |s.proc| && !Touches(a, p)
    ensures |Apply(s, a).proc| == |s.proc| && SameJob(s.proc[p].job, Apply(s, a).proc[p].job)
  {
    hide Tagged, WriteCount, WriteEnd, ReadEnd;
    var e, e' := s.proc[p], Apply(s, a).proc[p];
    assert e' == e || e' == WakeReader(e) || e' == WakeWriter(e) || (a.Kill? && a.p == p);
  }

  lemma CallsAt(s: Sys, p: nat, q: nat)
    requires Calls(s) && p < |s.proc| && q < |s.proc|
    ensures JobOk(s, s.proc[p]) && JobOk(s, s.proc[q])
    ensures p != q ==> !SameCall(s.proc[p], s.proc[q])
  {
    hide Of, WriteOk, ReadOk, JobOk;
    if p < q {
      assert !SameCall(s.proc[p], s.proc[q]);
    } else if q < p {
      assert !SameCall(s.proc[q], s.proc[p]);
    }
  }

  lemma CallsNew(s: Sys)
    requires Calls(s)
    ensures Of(s.written, |s.wcalls|) == [] && Of(s.read, |s.rcalls|) == []
    ensures |s.wcalls| !in s.wends && |s.rcalls| !in s.rends
  {
    hide Of, WriteOk, ReadOk, JobOk;
    OfNone(s.written, |s.wcalls|);
    OfNone(s.read, |s.rcalls|);
  }

  lemma JobStep(s: Sys, a: Action, p: nat)
    requires Calls(s) && Enabled(s, a) && p < |s.proc|
    ensures JobOk(Apply(s, a), Apply(s, a).proc[p])
  {
    hide Of, Calls, Tagged;
    CallsAt(s, p, p);
    CallsNew(s);
    if Touches(a, p) {
      TouchedStep(s, a);
    } else if !s.proc[p].job.Out? {
      UntouchedJob(s, a, p);
      OfStep(s, a, s.proc[p].job.c);
      if a.Run? {
        CallsAt(s, p, a.p);
      }
    } else {
      UntouchedJob(s, a, p);
    }
  }

  lemma TouchedStep(s: Sys, a: Action)
    requires (a.CallWrite? || a.CallRead? || a.Run?) && Enabled(s, a) && JobOk(s, s.proc[a.p])
    requires Of(s.written, |s.wcalls|) == [] && Of(s.read, |s.rcalls|) == []
    requires |s.wcalls| !in s.wends && |s.rcalls| !in s.rends
    ensures JobOk(Apply(s, a), Apply(s, a).proc[a.p])
  {
    hide Of, Tagged;
    if a.Run? {
      OfStep(s, a, s.proc[a.p].job.c);
    }
  }

  /** Who makes a step is out of the pipe after it, in the same call as before, or in a new one. */
  lemma TouchedJob(s: Sys, a: Action)
    requires (a.CallWrite? || a.CallRead? || a.Run?) && Enabled(s, a)
    ensures var e, e' := s.proc[a.p].job, Apply(s, a).proc[a.p].job;
            e'.Out? || (e.Writing? && e'.Writing? && e'.c == e.c) || (e.Reading? && e'.Reading? && e'.c == e.c) ||
            (e'.Writing? && e'.c == |s.wcalls|) || (e'.Reading? && e'.c == |s.rcalls|)
  {
    hide Tagged, WriteCount, WriteEnd, ReadEnd, WakeReaders, WakeWriters;
    if a.Run? {
      RunJob(s, a.p);
    }
  }

  lemma RunJob(s: Sys, p: nat)
    requires Enabled(s, Run(p))
    ensures var e, e' := s.proc[p].job, Apply(s, Run(p)).proc[p].job;
            |Apply(s, Run(p)).proc| == |s.proc| &&
            (e'.Out? || (e.Writing? && e'.Writing? && e'.c == e.c) || (e.Reading? && e'.Reading? && e'.c == e.c))
  {
    hide RunWriter, RunReader;
    if s.proc[p].job.Writing? {
      WriterJob(s, p);
    } else {
      ReaderJob(s, p);
    }
  }

  lemma WriterJob(s: Sys, p: nat)
    requires p < |s.proc| && s.proc[p].job.Writing?
    ensures var r := RunWriter(s, p).proc;
            |r| == |s.proc| && (r[p].job.Out? || (r[p].job.Writing? && r[p].job.c == s.proc[p].job.c))
  {
    hide Tagged, WriteCount, WriteEnd;
  }

  lemma ReaderJob(s: Sys, p: nat)
    requires p < |s.proc| && s.proc[p].job.Reading?
    ensures var r := RunReader(s, p).proc;
            |r| == |s.proc| && (r[p].job.Out? || (r[p].job.Reading? && r[p].job.c == s.proc[p].job.c))
  {
    hide Tagged, ReadEnd;
  }

  lemma ApartStep(s: Sys, a: Action, p: nat, q: nat)
    requires Calls(s) && Enabled(s, a) && p < q < |s.proc|
    ensures |Apply(s, a).proc| == |s.proc| && !SameCall(Apply(s, a).proc[p], Apply(s, a).proc[q])
  {
    hide Of, Calls, Apply;
    CallsAt(s, p, q);
    if Touches(a, p) {
      TouchedJob(s, a);
      UntouchedJob(s, a, q);
    } else {
      UntouchedJob(s, a, p);
      if Touches(a, q) {
        TouchedJob(s, a);
      } else {
        UntouchedJob(s, a, q);
      }
    }
  }

  lemma WriteStep(s: Sys, a: Action, c: nat)
    requires Calls(s) && Enabled(s, a) && c < |Apply(s, a).wcalls|
    ensures WriteOk(Apply(s, a), c)
  {
    hide Of, Calls, Tagged;
    var s' := Apply(s, a);
    CallsNew(s);
    OfStep(s, a, c);
    if c == |s.wcalls| {
      assert s'.proc[a.p].job.Writing? && s'.proc[a.p].job.c == c;
    } else {
      WriteAt(s, c);
      if a.Run? {
        CallsAt(s, a.p, a.p);
      }
      if c !in s'.wends {
        StillInWrite(s, a, c);
      }
    }
  }

  lemma StillInWrite(s: Sys, a: Action, c: nat)
    requires Enabled(s, a) && InWrite(s, c) && c !in Apply(s, a).wends
    ensures InWrite(Apply(s, a), c)
  {
    hide Of, Tagged;
    var s' := Apply(s, a);
    var p :| 0 <= p < |s.proc| && s.proc[p].job.Writing? && s.proc[p].job.c == c;
    if !Touches(a, p) {
      UntouchedJob(s, a, p);
    }
    assert s'.proc[p].job.Writing? && s'.proc[p].job.c == c;
  }

  lemma WriteAt(s: Sys, c: nat)
    requires Calls(s) && c < |s.wcalls|
    ensures WriteOk(s, c)
  {
  }

  lemma ReadStep(s: Sys, a: Action, c: nat)
    requires Inv(s) && Calls(s) && Enabled(s, a) && c < |Apply(s, a).rcalls|
    ensures ReadOk(Apply(s, a), c)
  {
    hide Of, WriteOk, Bytes;
    var s' := Apply(s, a);
    OfStep(s, a, c);
    if c == |s.rcalls| {
      OfNone(s.read, c);
    } else {
      assert ReadOk(s, c);
      if a.Run? {
        assert JobOk(s, s.proc[a.p]) && Inside(s, s.proc[a.p]);
      }
    }
  }

  lemma CallsStep(s: Sys, a: Action)
    requires Inv(s) && Calls(s) && Enabled(s, a)
    ensures Calls(Apply(s, a))
  {
    hide Of, WriteOk, ReadOk, SameCall;
    var s' := Apply(s, a);
    assert a.Run? ==> JobOk(s, s.proc[a.p]);
    forall p | 0 <= p < |s'.proc|
      ensures JobOk(s', s'.proc[p])
    {
      JobStep(s, a, p);
    }
    forall p, q | 0 <= p < q < |s'.proc|
      ensures !SameCall(s'.proc[p], s'.proc[q])
    {
      ApartStep(s, a, p, q);
    }
    forall c: nat | c < |s'.wcalls|
      ensures WriteOk(s', c)
    {
      WriteStep(s, a, c);
    }
    forall c: nat | c < |s'.rcalls|
      ensures ReadOk(s', c)
    {
      ReadStep(s, a, c);
    }
  }

  lemma {:induction false} RunInv(run: seq<Sys>, acts: seq<Action>, i: nat)
    requires IsRun(run, acts) && i < |run|
    ensures Inv(run[i]) && Calls(run[i])
  {
    if i > 0 {
      hide Apply, Inv, Calls;
      RunInv(run, acts, i - 1);
      assert StepAt(run, acts, i - 1);
      StepInv(run[i - 1], acts[i - 1]);
      CallsStep(run[i - 1], acts[i - 1]);
    }
  }

  // ---------------------------------------------------------------- the data

  /** First in, first out: what has been read is the beginning of what was written, and at most PIPESIZE bytes are
      left. */
  lemma Fifo(run: seq<Sys>, acts: seq<Action>, i: nat)
    requires IsRun(run, acts) && i < |run|
    ensures Bytes(run[i].read) <= Bytes(run[i].written) && |run[i].pending| <= PIPESIZE
    ensures Bytes(run[i].written)[|run[i].read|..] == run[i].pending
  {
    RunInv(run, acts, i);
  }

  /** Nothing of a call's record is changed once it is there. */
  lemma {:induction false} CallsKept(run: seq<Sys>, acts: seq<Action>, i: nat, j: nat)
    requires IsRun(run, acts) && i <= j < |run|
    ensures run[i].wcalls <= run[j].wcalls && run[i].rcalls <= run[j].rcalls
    ensures forall c :: c in run[i].wends ==> c in run[j].wends && run[j].wends[c] == run[i].wends[c]
    decreases j
  {
    if i < j {
      hide Apply, Inv, Calls;
      CallsKept(run, acts, i, j - 1);
      RunInv(run, acts, j - 1);
      assert StepAt(run, acts, j - 1);
      KeptStep(run[j - 1], acts[j - 1]);
    }
  }

  lemma KeptStep(s: Sys, a: Action)
    requires Calls(s) && Enabled(s, a)
    ensures s.wcalls <= Apply(s, a).wcalls && s.rcalls <= Apply(s, a).rcalls
    ensures forall c :: c in s.wends ==> c in Apply(s, a).wends && Apply(s, a).wends[c] == s.wends[c]
  {
    hide Of, WriteOk, ReadOk, SameCall;
    if a.Run? {
      assert JobOk(s, s.proc[a.p]);
    }
  }

  /** Of what a call of pipewrite was given, a beginning is in the pipe or through it, in order and with nothing skipped
      or repeated, whoever else writes; all of it once the call has returned, not all if it has failed; and while it has
      not ended its process has exactly the rest still to write. */
  lemma WholeWrite(run: seq<Sys>, acts: seq<Action>, i: nat, j: nat, p: nat, addr: seq<byte>)
    requires IsRun(run, acts) && i < j < |run| && acts[i] == CallWrite(p, addr)
    ensures var s, c := run[j], |run[i].wcalls|;
            Of(s.written, c) <= addr &&
            (c in s.wends ==> !s.wends[c].Sleeps? && (s.wends[c].Returns? <==> Of(s.written, c) == addr)) &&
            (c !in s.wends ==>
              exists q :: 0 <= q < |s.proc| && s.proc[q].job.Writing? && s.proc[q].job.c == c &&
                          Of(s.written, c) + s.proc[q].job.rest == addr)
  {
    hide Of, ReadOk, SameCall, Inv;
    var s, c := run[j], |run[i].wcalls|;
    assert StepAt(run, acts, i);
    CallsKept(run, acts, i + 1, j);
    assert run[i + 1].wcalls[c] == addr;
    RunInv(run, acts, j);
    assert WriteOk(s, c);
    if c !in s.wends {
      var q :| 0 <= q < |s.proc| && s.proc[q].job.Writing? && s.proc[q].job.c == c;
      assert JobOk(s, s.proc[q]);
    }
  }

  /** A call of piperead that asked for bytes and returned none has seen the end of the file: the writing end is closed
      and everything ever written has been read. */
  lemma EndOfFile(run: seq<Sys>, acts: seq<Action>, i: nat, c: nat)
    requires IsRun(run, acts) && i < |run| && c in run[i].rends && c < |run[i].rcalls|
    requires run[i].rends[c].Returns? && run[i].rcalls[c] > 0 && Of(run[i].read, c) == []
    ensures !run[i].writeopen && Bytes(run[i].read) == Bytes(run[i].written)
  {
    RunInv(run, acts, i);
    assert ReadOk(run[i], c);
  }

  // ---------------------------------------------------------------- who sleeps

  /** A writer sleeps only on a full pipe that can still be read, with bytes left to write and not killed; a reader
      only while the pipe can still be written, and not killed. */
  lemma SleepingWriter(run: seq<Sys>, acts: seq<Action>, i: nat, p: nat)
    requires IsRun(run, acts) && i < |run| && p < |run[i].proc| && !run[i].proc[p].job.Out? && run[i].proc[p].job.asleep
    ensures !run[i].proc[p].killed
    ensures run[i].proc[p].job.Writing? ==>
              |run[i].pending| == PIPESIZE && run[i].readopen && run[i].proc[p].job.rest != []
    ensures run[i].proc[p].job.Reading? ==> run[i].writeopen
  {
    RunInv(run, acts, i);
    assert Inside(run[i], run[i].proc[p]);
  }

  /** How a stretch of pipewrite ends: it returns exactly if the rest fits, else leaves the pipe full, and then fails
      exactly if nobody can read or the process is killed, and sleeps otherwise. */
  lemma WriterEnds(s: Sys, p: nat)
    requires Inv(s) && Enabled(s, Run(p)) && s.proc[p].job.Writing?
    ensures var s', c, rest := Apply(s, Run(p)), s.proc[p].job.c, s.proc[p].job.rest;
            var fits := |s.pending| + |rest| <= PIPESIZE;
            (s'.proc[p].job.Out? <==> fits || !s.readopen || s.proc[p].killed) &&
            (s'.proc[p].job.Out? ==> c in s'.wends && (s'.wends[c].Returns? <==> fits)) &&
            (!s'.proc[p].job.Out? ==> s'.proc[p].job.asleep && s'.wends == s.wends) &&
            |s'.pending| == if fits then |s.pending| + |rest| else PIPESIZE
  {
  }

  /** How a stretch of piperead ends: on an empty pipe that can still be written, a killed reader fails and another
      sleeps; else it returns, with as many bytes as there are and it asked for. */
  lemma ReaderEnds(s: Sys, p: nat)
    requires Inv(s) && Enabled(s, Run(p)) && s.proc[p].job.Reading?
    ensures var s', c, n := Apply(s, Run(p)), s.proc[p].job.c, s.proc[p].job.n;
            var waits := s.pending == [] && s.writeopen;
            (s'.proc[p].job.Out? <==> !waits || s.proc[p].killed) &&
            (s'.proc[p].job.Out? ==> c in s'.rends && (s'.rends[c].Returns? <==> !waits)) &&
            (!s'.proc[p].job.Out? ==> s'.proc[p].job.asleep && s'.rends == s.rends) &&
            |s'.pending| == |s.pending| - Min(n, |s.pending|)
  {
  }

  /** A reader sleeps only on an empty pipe that can still be written. */
  ghost predicate ReadersOk(s: Sys) {
    forall p :: 0 <= p < |s.proc| && AsleepReading(s.proc[p]) ==> s.pending == [] && s.writeopen
  }

  predicate AsleepReading(e: Proc) {
    e.job.Reading? && e.job.asleep
  }

  /** A killed writer fills the pipe and leaves without waking anyone, while a reader sleeps. */
  predicate Abandons(s: Sys, a: Action) {
    a.Run? && a.p < |s.proc| && s.proc[a.p].killed && s.proc[a.p].job.Writing? &&
    |s.proc[a.p].job.rest| > PIPESIZE - Min(|s.pending|, PIPESIZE) > 0 &&
    exists r :: 0 <= r < |s.proc| && AsleepReading(s.proc[r])
  }

  /** That is the one way in which a reader is left sleeping on a pipe that is not empty. */
  lemma ReadersOkIff(s: Sys, a: Action)
    requires Inv(s) && ReadersOk(s) && Enabled(s, a)
    ensures ReadersOk(Apply(s, a)) <==> !Abandons(s, a)
  {
    hide Bytes, Tagged;
    var s' := Apply(s, a);
    if Abandons(s, a) {
      var r :| 0 <= r < |s.proc| && AsleepReading(s.proc[r]);
      assert AsleepReading(s'.proc[r]) && s'.pending != [];
    } else {
      forall r | 0 <= r < |s'.proc| && AsleepReading(s'.proc[r])
        ensures s'.pending == [] && s'.writeopen
      {
        assert Inside(s, s.proc[r]);
        assert AsleepReading(s.proc[r]) || (a.Run? && a.p == r);
      }
    }
  }

  lemma {:induction false} ReadersOkRun(run: seq<Sys>, acts: seq<Action>, i: nat)
    requires IsRun(run, acts) && i < |run| && forall j :: 0 <= j < i ==> !Abandons(run[j], acts[j])
    ensures ReadersOk(run[i])
  {
    if i > 0 {
      hide Apply, Inv, Calls;
      ReadersOkRun(run, acts, i - 1);
      RunInv(run, acts, i - 1);
      assert StepAt(run, acts, i - 1);
      ReadersOkIff(run[i - 1], acts[i - 1]);
    }
  }

  /** On such runs readers and writers never all wait for each other. */
  lemma NotBothAsleep(run: seq<Sys>, acts: seq<Action>, i: nat, p: nat, q: nat)
    requires IsRun(run, acts) && i < |run| && (forall j :: 0 <= j < i ==> !Abandons(run[j], acts[j])) &&
             p < |run[i].proc| && q < |run[i].proc|
    requires run[i].proc[p].job.Writing? && run[i].proc[p].job.asleep
    ensures !AsleepReading(run[i].proc[q])
  {
    ReadersOkRun(run, acts, i);
    SleepingWriter(run, acts, i, p);
  }

  function Zeros(n: nat): seq<byte> {
    seq(n, i => 0)
  }

  function Fresh(): Sys {
    Sys([Proc(Out, false), Proc(Out, false)], [], true, true, [], map[], [], map[], [], [])
  }

  /** A run in which a reader is left so: it sleeps, and then a killed writer has more to write than fits. */
  lemma AbandonedReader() returns (run: seq<Sys>, acts: seq<Action>)
    ensures IsRun(run, acts) && |run| == 6 && !ReadersOk(run[5])
  {
    hide Tagged;
    var s0 := Fresh();
    acts := [CallRead(0, 1), Run(0), Kill(1), CallWrite(1, Zeros(PIPESIZE + 1)), Run(1)];
    var s1 := Apply(s0, acts[0]);
    var s2 := Apply(s1, acts[1]);
    var s3 := Apply(s2, acts[2]);
    var s4 := Apply(s3, acts[3]);
    var s5 := Apply(s4, acts[4]);
    run := [s0, s1, s2, s3, s4, s5];
    assert StepAt(run, acts, 0) && StepAt(run, acts, 1) && StepAt(run, acts, 2) && StepAt(run, acts, 3) &&
      StepAt(run, acts, 4);
    assert AsleepReading(s5.proc[0]) && |s5.pending| == PIPESIZE;
  }

  // ---------------------------------------------------------------- long writes get through

  /** Process 0 is about to write addr from byte m on, and process 1 has read all before. */
  ghost predicate Halfway(s: Sys, addr: seq<byte>, m: nat) {
    m <= |addr| && s.proc == [Proc(Writing(0, addr[m..], false), false), Proc(Out, false)] && s.pending == [] &&
    s.readopen && s.writeopen && Bytes(s.written) == Bytes(s.read) == addr[..m]
  }

  /** The writer fills the pipe and sleeps, and the reader empties it and wakes the writer. */
  lemma Round(s: Sys, addr: seq<byte>, m: nat) returns (run: seq<Sys>, acts: seq<Action>)
    requires Halfway(s, addr, m) && |addr| - m > PIPESIZE
    ensures Follows(run, acts) && |acts| == 3 && run[0] == s && Halfway(run[3], addr, m + PIPESIZE)
    ensures |run[1].proc| == 2 && run[1].proc[0] == Proc(Writing(0, addr[m + PIPESIZE..], true), false)
  {
    hide Bytes, Tagged;
    acts := [Run(0), CallRead(1, PIPESIZE), Run(1)];
    var s1 := Apply(s, acts[0]);
    assert addr[m..][PIPESIZE..] == addr[m + PIPESIZE..];
    BytesTagged(s.written, 0, addr[m..][..PIPESIZE]);
    assert addr[..m] + addr[m..][..PIPESIZE] == addr[..m + PIPESIZE];
    var s2 := Apply(s1, acts[1]);
    var s3 := Apply(s2, acts[2]);
    BytesTagged(s2.read, |s1.rcalls|, s2.pending[..PIPESIZE]);
    assert s2.pending[..PIPESIZE] == addr[m..][..PIPESIZE];
    run := [s, s1, s2, s3];
    assert StepAt(run, acts, 0) && StepAt(run, acts, 1) && StepAt(run, acts, 2);
  }

  /** What is left fits: the call returns, and the reader gets the rest. */
  lemma LastRound(s: Sys, addr: seq<byte>, m: nat) returns (run: seq<Sys>, acts: seq<Action>)
    requires Halfway(s, addr, m) && 0 < |addr| - m <= PIPESIZE
    ensures Follows(run, acts) && |acts| == 3 && run[0] == s && 0 in run[3].wends && run[3].wends[0] == Returns
    ensures Bytes(run[3].read) == addr
  {
    hide Bytes, Tagged;
    acts := [Run(0), CallRead(1, PIPESIZE), Run(1)];
    var s1 := Apply(s, acts[0]);
    assert addr[m..][..|addr| - m] == addr[m..];
    var s2 := Apply(s1, acts[1]);
    var s3 := Apply(s2, acts[2]);
    assert s2.pending == addr[m..] == s2.pending[..|addr| - m];
    BytesTagged(s2.read, |s1.rcalls|, addr[m..]);
    assert addr[..m] + addr[m..] == addr;
    run := [s, s1, s2, s3];
    assert StepAt(run, acts, 0) && StepAt(run, acts, 1) && StepAt(run, acts, 2);
  }

  lemma FollowsJoin(run: seq<Sys>, acts: seq<Action>, more: seq<Sys>, next: seq<Action>)
    requires Follows(run, acts) && Follows(more, next) && run[|acts|] == more[0]
    ensures Follows(run + more[1..], acts + next) && (run + more[1..])[|acts| + |next|] == more[|next|]
  {
    hide Apply, Enabled;
    forall i | 0 <= i < |acts + next|
      ensures StepAt(run + more[1..], acts + next, i)
    {
      assert i < |acts| ==> StepAt(run, acts, i);
      assert i >= |acts| ==> StepAt(more, next, i - |acts|);
    }
  }

  lemma {:induction false} Rounds(s: Sys, addr: seq<byte>, m: nat) returns (run: seq<Sys>, acts: seq<Action>)
    requires Halfway(s, addr, m) && m < |addr|
    ensures Follows(run, acts) && |acts| >= 3 && run[0] == s
    ensures 0 in run[|acts|].wends && run[|acts|].wends[0] == Returns && Bytes(run[|acts|].read) == addr
    ensures |addr| - m > PIPESIZE ==> |run[1].proc| == 2 && run[1].proc[0].job.Writing? && run[1].proc[0].job.asleep
    decreases |addr| - m
  {
    hide Halfway, Follows, Bytes;
    if |addr| - m > PIPESIZE {
      run, acts := Round(s, addr, m);
      FollowsLength(run, acts);
      var more, next := Rounds(run[3], addr, m + PIPESIZE);
      FollowsLength(more, next);
      FollowsJoin(run, acts, more, next);
      run, acts := run + more[1..], acts + next;
    } else {
      run, acts := LastRound(s, addr, m);
    }
  }

  lemma FollowsLength(run: seq<Sys>, acts: seq<Action>)
    requires Follows(run, acts)
    ensures |run| == |acts| + 1
  {
  }

  /** Whatever its length, there is a run on which a write gets through: the call returns and its bytes, all of them and
      in order, are read. With more than the pipe holds, the writer sleeps on the way. */
  lemma Transfers(addr: seq<byte>) returns (run: seq<Sys>, acts: seq<Action>)
    ensures IsRun(run, acts) && |acts| >= 2 && acts[0] == CallWrite(0, addr)
    ensures 0 in run[|acts|].wends && run[|acts|].wends[0] == Returns && Bytes(run[|acts|].read) == addr
    ensures |addr| > PIPESIZE ==> |run[2].proc| == 2 && run[2].proc[0].job.Writing? && run[2].proc[0].job.asleep
  {
    var s0 := Fresh();
    var s1 := Apply(s0, CallWrite(0, addr));
    var first, call := [s0, s1], [CallWrite(0, addr)];
    assert StepAt(first, call, 0);
    if addr == [] {
      run, acts := first + [Apply(s1, Run(0))], call + [Run(0)];
      assert StepAt(run, acts, 0) && StepAt(run, acts, 1);
      return;
    }
    assert addr[0..] == addr;
    var more, next := Rounds(s1, addr, 0);
    FollowsJoin(first, call, more, next);
    run, acts := first + more[1..], call + next;
  }
}
