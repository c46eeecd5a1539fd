/** The pipe of kernel/pipe.c: a ring of PIPESIZE bytes between two 32-bit
    counters that wrap, used by any number of processes under one lock. */
module Pipe {
  import opened Params

  const PIPESIZE := 512
  const FREE := -1

  // ---- the ring

  datatype Ring = Ring(data: seq<int>, nread: int, nwrite: int)

  predicate Full(r: Ring) {
    r.nwrite == (r.nread + PIPESIZE) % WORDS
  }

  predicate Empty(r: Ring) {
    r.nread == r.nwrite
  }

  /** What the counters and the ring mean: all bytes ever put in, all ever
      taken out, and the last PIPESIZE or fewer of them still in the ring. */
  ghost predicate Means(r: Ring, produced: seq<int>, consumed: seq<int>) {
    && |r.data| == PIPESIZE
    && |consumed| <= |produced| <= |consumed| + PIPESIZE
    && r.nwrite == |produced| % WORDS && r.nread == |consumed| % WORDS
    && consumed == produced[..|consumed|]
    && forall k {:trigger produced[k]} :: |consumed| <= k < |produced| ==> r.data[k % PIPESIZE] == produced[k]
  }

  /** The tests on wrapped counters are exact. */
  lemma Tests(r: Ring, produced: seq<int>, consumed: seq<int>)
    requires Means(r, produced, consumed)
    ensures Full(r) <==> |produced| == |consumed| + PIPESIZE
    ensures Empty(r) <==> |produced| == |consumed|
  {
    var d := |produced| - |consumed|;
    assert (r.nread + d) % WORDS == r.nwrite;
  }

  lemma WrapIndex(n: nat)
    ensures n % WORDS % PIPESIZE == n % PIPESIZE && (n % WORDS + 1) % WORDS == (n + 1) % WORDS
  {
    Multiple(n / WORDS * 0x80_0000, n % WORDS);
    assert n == n / WORDS * 0x80_0000 * PIPESIZE + n % WORDS;
    NextWord(n);
  }

  lemma Multiple(a: int, r: int)
    ensures (a * PIPESIZE + r) % PIPESIZE == r % PIPESIZE
  {
    assert a * PIPESIZE + r == (a + r / PIPESIZE) * PIPESIZE + r % PIPESIZE;
  }

  lemma NextWord(n: nat)
    ensures (n % WORDS + 1) % WORDS == (n + 1) % WORDS
  {
    assert n + 1 == n / WORDS * WORDS + n % WORDS + 1;
  }

  /** data[nwrite++ % PIPESIZE] = ch */
  ghost predicate Put(r: Ring, t: Ring, ch: int)
    requires |r.data| == PIPESIZE && 0 <= r.nwrite
  {
    t.data == r.data[r.nwrite % PIPESIZE := ch] && t.nwrite == (r.nwrite + 1) % WORDS && t.nread == r.nread
  }

  lemma PutMeans(r: Ring, t: Ring, ch: int, produced: seq<int>, consumed: seq<int>)
    requires Means(r, produced, consumed) && !Full(r) && Put(r, t, ch)
    ensures Means(t, produced + [ch], consumed)
  {
    Tests(r, produced, consumed);
    var n := |produced|;
    WrapIndex(n);
    var more := produced + [ch];
    forall k | |consumed| <= k < |more| ensures t.data[k % PIPESIZE] == more[k] {
      PutAt(r.data, n, ch, k);
    }
  }

  /** Two positions less than PIPESIZE apart are in different places of the ring. */
  lemma PutAt(data: seq<int>, n: nat, ch: int, k: nat)
    requires |data| == PIPESIZE && k <= n < k + PIPESIZE
    ensures data[n % PIPESIZE := ch][k % PIPESIZE] == if k == n then ch else data[k % PIPESIZE]
  {}

  /** ch = data[nread++ % PIPESIZE] */
  lemma GetMeans(r: Ring, t: Ring, produced: seq<int>, consumed: seq<int>)
    requires Means(r, produced, consumed) && !Empty(r)
    requires t.data == r.data && t.nwrite == r.nwrite && t.nread == (r.nread + 1) % WORDS
    ensures |consumed| < |produced| && r.data[r.nread % PIPESIZE] == produced[|consumed|]
    ensures Means(t, produced, consumed + [r.data[r.nread % PIPESIZE]])
  {
    Tests(r, produced, consumed);
    WrapIndex(|consumed|);
    var ch := produced[|consumed|];
    assert produced[..|consumed| + 1] == consumed + [ch];
  }

  // ---- the code between acquire and sleep or release

  datatype Outcome = Done | Refused | MustSleep

  class PipeBuf {
    const data: array<int>
    var nread: int
    var nwrite: int
    var readopen: bool
    var writeopen: bool
    ghost var produced: seq<int>
    ghost var consumed: seq<int>

    ghost predicate Valid()
      reads this, data
    {
      Means(Ring(data[..], nread, nwrite), produced, consumed)
    }

    /** pipealloc */
    constructor ()
      ensures Valid() && fresh(data) && produced == [] && consumed == [] && readopen && writeopen
    {
      data := new int[PIPESIZE](_ => 0);
      nread, nwrite, readopen, writeopen := 0, 0, true, true;
      produced, consumed := [], [];
    }

    method PutByte(ch: int)
      requires Valid() && !Full(Ring(data[..], nread, nwrite))
      modifies this`nwrite, this`produced, data
      ensures Valid() && produced == old(produced) + [ch]
    {
      ghost var r := Ring(data[..], nread, nwrite);
      data[nwrite % PIPESIZE] := ch;
      nwrite := (nwrite + 1) % WORDS;
      PutMeans(r, Ring(data[..], nread, nwrite), ch, produced, consumed);
      produced := produced + [ch];
    }

    method GetByte() returns (ch: int)
      requires Valid() && !Empty(Ring(data[..], nread, nwrite))
      modifies this`nread, this`consumed
      ensures Valid() && consumed == old(consumed) + [ch]
      ensures |old(consumed)| < |produced| && ch == produced[|old(consumed)|]
    {
      ghost var r := Ring(data[..], nread, nwrite);
      ch := data[nread % PIPESIZE];
      nread := (nread + 1) % WORDS;
      GetMeans(r, Ring(data[..], nread, nwrite), produced, consumed);
      consumed := consumed + [ch];
    }

    /** pipewrite's loop from byte i0 on, until it has to sleep or is through;
        the copy of byte bad fails. */
    method WriteRun(src: seq<int>, i0: int, killed: bool, bad: int) returns (i: int, out: Outcome)
      requires Valid() && 0 <= i0 <= |src|
      modifies this`nwrite, this`produced, data
      ensures Valid() && i0 <= i <= |src| && produced == old(produced) + src[i0..i]
      ensures out.Done? ==> i == |src| || i == bad
      ensures out.Refused? ==> i < |src| && (!readopen || killed)
      ensures i0 < |src| && (!readopen || killed) ==> out.Refused? && i == i0
      ensures out.MustSleep? ==> i < |src| && readopen && |produced| == |consumed| + PIPESIZE
    {
      i, out := i0, Done;
      while i < |src|
        invariant i0 <= i <= |src| && Valid() && produced == old(produced) + src[i0..i]
        invariant i0 < i ==> readopen && !killed
      {
        if !readopen || killed {
          return i, Refused;
        }
        if nwrite == (nread + PIPESIZE) % WORDS {
          Tests(Ring(data[..], nread, nwrite), produced, consumed);
          return i, MustSleep;
        }
        if i == bad {
          break;
        }
        PutByte(src[i]);
        assert src[i0..i + 1] == src[i0..i] + [src[i]];
        i := i + 1;
      }
    }

    /** piperead's copy loop; the copy of byte bad fails after it was taken. */
    method ReadRun(n: int, bad: int) returns (i: int, dst: seq<int>)
      requires Valid()
      modifies this`nread, this`consumed
      ensures Valid() && i == |dst| && old(consumed) + dst <= consumed && (i == 0 || i <= n)
      ensures |consumed| <= |old(consumed)| + i + (if i == bad then 1 else 0)
      ensures i < n && i != bad ==> consumed == produced
    {
      i, dst := 0, [];
      while i < n
        invariant 0 <= i == |dst| && Valid() && consumed == old(consumed) + dst && (i == 0 || i <= n)
      {
        if nread == nwrite {
          Tests(Ring(data[..], nread, nwrite), produced, consumed);
          break;
        }
        var ch := GetByte();
        if i == bad {
          break;
        }
        dst := dst + [ch];
        i := i + 1;
      }
    }
  }

  // ---- any number of processes

  /** Where a process is; all but the sleeping and waking states hold the lock. */
  datatype Pc =
    | Idle
    | WAcquire(i: int, n: int)
    | WLoop(i: int, n: int)      // pipewrite's loop
    | WFull(i: int, n: int)      //   readers woken; sleep is next
    | WSleep(i: int, n: int)     //   asleep on nwrite
    | WEnd                       //   wakeup(&nread)
    | RAcquire(n: int)
    | RWait(n: int)              // piperead's first loop
    | RSleep(n: int)             //   asleep on nread
    | RCopy(i: int, n: int)      // its second loop
    | REnd                       //   wakeup(&nwrite)
    | CAcquire(writable: bool)   // pipeclose
    | CSet(writable: bool)
    | CWake(writable: bool)
    | Release

  /** gaveUp says that some writer has returned in the middle, after it had put bytes in. */
  datatype Sys = Sys(pc: seq<Pc>, lock: int, ring: Ring, readopen: bool, writeopen: bool, gaveUp: bool,
                     produced: seq<int>, consumed: seq<int>)

  predicate IsProc(s: Sys, p: int) {
    0 <= p < |s.pc|
  }

  predicate SameBytes(s: Sys, t: Sys) {
    t.ring == s.ring && t.produced == s.produced && t.consumed == s.consumed
  }

  predicate SameEnds(s: Sys, t: Sys) {
    t.readopen == s.readopen && t.writeopen == s.writeopen && t.gaveUp == s.gaveUp
  }

  /** pipewrite returns -1 after i bytes, without a wakeup. */
  ghost predicate Quits(s: Sys, t: Sys, p: int, i: int)
    requires IsProc(s, p)
  {
    && t.pc == s.pc[p := Release] && t.lock == s.lock && SameBytes(s, t)
    && t.readopen == s.readopen && t.writeopen == s.writeopen && t.gaveUp == (s.gaveUp || i > 0)
  }

  /** p goes to x; nothing else happens. */
  ghost predicate Goto(s: Sys, t: Sys, p: int, x: Pc)
    requires IsProc(s, p)
  {
    t.pc == s.pc[p := x] && t.lock == s.lock && SameBytes(s, t) && SameEnds(s, t)
  }

  /** acquire and release of the pipe's lock. */
  ghost predicate Locks(s: Sys, t: Sys, p: int, x: Pc, before: int, after: int)
    requires IsProc(s, p)
  {
    s.lock == before && t.lock == after && t.pc == s.pc[p := x] && SameBytes(s, t) && SameEnds(s, t)
  }

  function Roused(x: Pc, writers: bool): (y: Pc) {
    if writers && x.WSleep? then WAcquire(x.i, x.n)
    else if !writers && x.RSleep? then RAcquire(x.n)
    else x
  }

  /** wakeup(&nwrite) or wakeup(&nread) by p, which goes to x. */
  ghost predicate Wakes(s: Sys, t: Sys, p: int, writers: bool, x: Pc)
    requires IsProc(s, p)
  {
    && |t.pc| == |s.pc| && t.lock == s.lock && SameBytes(s, t) && SameEnds(s, t)
    && forall q :: IsProc(s, q) ==> t.pc[q] == if q == p then x else Roused(s.pc[q], writers)
  }

  /** p puts in some byte from user memory. */
  ghost predicate Puts(s: Sys, t: Sys, p: int, x: Pc)
    requires IsProc(s, p)
  {
    && |s.ring.data| == PIPESIZE && 0 <= s.ring.nwrite && |t.produced| == |s.produced| + 1
    && var ch := t.produced[|s.produced|];
    && Put(s.ring, t.ring, ch) && t.produced == s.produced + [ch] && t.consumed == s.consumed
    && t.pc == s.pc[p := x] && t.lock == s.lock && SameEnds(s, t)
  }

  ghost predicate Gets(s: Sys, t: Sys, p: int, x: Pc)
    requires IsProc(s, p)
  {
    && |s.ring.data| == PIPESIZE && 0 <= s.ring.nread
    && t.ring.data == s.ring.data && t.ring.nwrite == s.ring.nwrite && t.ring.nread == (s.ring.nread + 1) % WORDS
    && t.produced == s.produced && t.consumed == s.consumed + [s.ring.data[s.ring.nread % PIPESIZE]]
    && t.pc == s.pc[p := x] && t.lock == s.lock && SameEnds(s, t)
  }

  ghost predicate Write(s: Sys, t: Sys, p: int)
    requires IsProc(s, p)
  {
    match s.pc[p]
    case Idle => exists n :: Goto(s, t, p, WAcquire(0, n))
    case WAcquire(i, n) => Locks(s, t, p, WLoop(i, n), FREE, p)
    case WLoop(i, n) =>
      if i >= n then Goto(s, t, p, WEnd)
      else
        || Quits(s, t, p, i)                               // killed, or readopen == 0
        || (s.readopen && if Full(s.ring) then Wakes(s, t, p, false, WFull(i, n))
                          else Goto(s, t, p, WEnd) ||      // copyin failed
                               Puts(s, t, p, WLoop(i + 1, n)))
    case WFull(i, n) => Locks(s, t, p, WSleep(i, n), p, FREE)
    case WSleep(i, n) => Goto(s, t, p, WAcquire(i, n))     // killed
    case WEnd => Wakes(s, t, p, false, Release)
    case _ => false
  }

  ghost predicate Read(s: Sys, t: Sys, p: int)
    requires IsProc(s, p)
  {
    match s.pc[p]
    case Idle => exists n :: Goto(s, t, p, RAcquire(n))
    case RAcquire(n) => Locks(s, t, p, RWait(n), FREE, p)
    case RWait(n) =>
      if Empty(s.ring) && s.writeopen then Goto(s, t, p, Release) || Locks(s, t, p, RSleep(n), p, FREE)
      else Goto(s, t, p, RCopy(0, n))
    case RSleep(n) => Goto(s, t, p, RAcquire(n))           // killed
    case RCopy(i, n) =>
      if i >= n || Empty(s.ring) then Goto(s, t, p, REnd)
      else Gets(s, t, p, RCopy(i + 1, n)) || Gets(s, t, p, REnd)  // copyout failed
    case REnd => Wakes(s, t, p, true, Release)
    case _ => false
  }

  ghost predicate Close(s: Sys, t: Sys, p: int)
    requires IsProc(s, p)
  {
    match s.pc[p]
    case Idle => exists w :: Goto(s, t, p, CAcquire(w))
    case CAcquire(w) => Locks(s, t, p, CSet(w), FREE, p)
    case CSet(w) =>
      && t.pc == s.pc[p := CWake(w)] && t.lock == s.lock && SameBytes(s, t) && t.gaveUp == s.gaveUp
      && t.writeopen == (s.writeopen && !w) && t.readopen == (s.readopen && w)
    case CWake(w) => Wakes(s, t, p, !w, Release)
    case Release => Locks(s, t, p, Idle, p, FREE)
    case _ => false
  }

  ghost predicate Move(s: Sys, t: Sys, p: int)
    requires IsProc(s, p)
  {
    Write(s, t, p) || Read(s, t, p) || Close(s, t, p)
  }

  ghost predicate Step(s: Sys, t: Sys) {
    exists p :: IsProc(s, p) && Move(s, t, p)
  }

  // ---- the invariant

  predicate Holds(x: Pc) {
    x.WLoop? || x.WFull? || x.WEnd? || x.RWait? || x.RCopy? || x.REnd? || x.CSet? || x.CWake? || x.Release?
  }

  /** The holder of the lock has yet to call wakeup(&nwrite). */
  predicate WillWake(s: Sys) {
    IsProc(s, s.lock) && var x := s.pc[s.lock]; x.RCopy? || x.REnd? || (x.CWake? && !x.writable)
  }

  /** The holder of the lock has yet to call wakeup(&nread). */
  predicate WillRouse(s: Sys) {
    IsProc(s, s.lock) && var x := s.pc[s.lock]; (x.WLoop? && x.i > 0) || x.WEnd? || (x.CWake? && x.writable)
  }

  predicate Ok(s: Sys, p: int)
    requires IsProc(s, p)
  {
    var x := s.pc[p];
    && (Holds(x) <==> s.lock == p) && (x.WAcquire? || x.WLoop? || x.WFull? || x.WSleep? ==> x.i >= 0)
    && (x.WFull? ==> Full(s.ring) && s.readopen)
    && (x.WSleep? ==> (Full(s.ring) && s.readopen) || WillWake(s))
    && (x.RSleep? ==> (Empty(s.ring) && s.writeopen) || s.gaveUp || WillRouse(s))
  }

  ghost predicate Inv(s: Sys) {
    && Means(s.ring, s.produced, s.consumed)
    && (s.lock == FREE || IsProc(s, s.lock))
    && forall p :: IsProc(s, p) ==> Ok(s, p)
  }

  lemma WriteMeans(s: Sys, t: Sys, p: int)
    requires IsProc(s, p) && Write(s, t, p) && Means(s.ring, s.produced, s.consumed)
    ensures Means(t.ring, t.produced, t.consumed)
  {
    if !SameBytes(s, t) {
      PutMeans(s.ring, t.ring, t.produced[|s.produced|], s.produced, s.consumed);
    }
  }

  lemma ReadMeans(s: Sys, t: Sys, p: int)
    requires IsProc(s, p) && Read(s, t, p) && Means(s.ring, s.produced, s.consumed)
    ensures Means(t.ring, t.produced, t.consumed)
  {
    if !SameBytes(s, t) {
      GetMeans(s.ring, t.ring, s.produced, s.consumed);
    }
  }

  lemma WriteOk(s: Sys, t: Sys, p: int, q: int)
    requires IsProc(s, p) && IsProc(s, q) && Write(s, t, p) && Ok(s, p) && Ok(s, q) && |t.pc| == |s.pc|
    requires s.lock == FREE || IsProc(s, s.lock)
    ensures Ok(t, q) && (t.lock == FREE || IsProc(t, t.lock))
  {}

  lemma ReadOk(s: Sys, t: Sys, p: int, q: int)
    requires IsProc(s, p) && IsProc(s, q) && Read(s, t, p) && Ok(s, p) && Ok(s, q) && |t.pc| == |s.pc|
    requires s.lock == FREE || IsProc(s, s.lock)
    ensures Ok(t, q) && (t.lock == FREE || IsProc(t, t.lock))
  {}

  lemma CloseOk(s: Sys, t: Sys, p: int, q: int)
    requires IsProc(s, p) && IsProc(s, q) && Close(s, t, p) && Ok(s, p) && Ok(s, q) && |t.pc| == |s.pc|
    requires s.lock == FREE || IsProc(s, s.lock)
    ensures Ok(t, q) && (t.lock == FREE || IsProc(t, t.lock))
  {}

  lemma MeansMove(s: Sys, t: Sys, p: int)
    requires IsProc(s, p) && Move(s, t, p) && Means(s.ring, s.produced, s.consumed)
    ensures Means(t.ring, t.produced, t.consumed) && |t.pc| == |s.pc|
  {
    if Write(s, t, p) {
      WriteMeans(s, t, p);
    } else if Read(s, t, p) {
      ReadMeans(s, t, p);
    }
  }

  lemma OkMove(s: Sys, t: Sys, p: int, q: int)
    requires IsProc(s, p) && IsProc(s, q) && Move(s, t, p) && Ok(s, p) && Ok(s, q) && |t.pc| == |s.pc|
    requires s.lock == FREE || IsProc(s, s.lock)
    ensures Ok(t, q) && (t.lock == FREE || IsProc(t, t.lock))
  {
    if Write(s, t, p) {
      WriteOk(s, t, p, q);
    } else if Read(s, t, p) {
      ReadOk(s, t, p, q);
    } else {
      CloseOk(s, t, p, q);
    }
  }

  lemma InvStep(s: Sys, t: Sys)
    requires Inv(s) && Step(s, t)
    ensures Inv(t)
  {
    var p :| IsProc(s, p) && Move(s, t, p);
    MeansMove(s, t, p);
    OkMove(s, t, p, p);
    forall q | IsProc(s, q) ensures Ok(t, q) {
      OkMove(s, t, p, q);
    }
  }

  // ---- runs

  ghost predicate Start(s: Sys) {
    && s.lock == FREE && s.readopen && s.writeopen && !s.gaveUp && s.produced == [] && s.consumed == []
    && |s.ring.data| == PIPESIZE && s.ring.nread == 0 && s.ring.nwrite == 0
    && forall p :: IsProc(s, p) ==> s.pc[p].Idle?
  }

  ghost predicate Run(r: seq<Sys>) {
    r != [] && Start(r[0]) && forall i {:trigger StepAt(r, i)} :: StepAt(r, i)
  }

  ghost predicate StepAt(r: seq<Sys>, i: int) {
    0 <= i < |r| - 1 ==> Step(r[i], r[i + 1])
  }

  lemma {:induction false} InvRun(r: seq<Sys>, i: nat)
    requires Run(r) && i < |r|
    ensures Inv(r[i])
  {
    if i > 0 {
      InvRun(r, i - 1);
      assert StepAt(r, i - 1);
      InvStep(r[i - 1], r[i]);
    }
  }

  /** However often the counters wrap, what was read is the beginning of what
      was written, at most PIPESIZE bytes are in between, and the two tests on
      the counters are right. */
  lemma Stream(r: seq<Sys>, i: nat)
    requires Run(r) && i < |r|
    ensures var s := r[i];
      && s.consumed <= s.produced && |s.produced| - |s.consumed| <= PIPESIZE
      && (Full(s.ring) <==> |s.produced| - |s.consumed| == PIPESIZE)
      && (Empty(s.ring) <==> s.produced == s.consumed)
  {
    InvRun(r, i);
    Tests(r[i].ring, r[i].produced, r[i].consumed);
    if |r[i].consumed| == |r[i].produced| {
      assert r[i].produced[..|r[i].consumed|] == r[i].produced;
    }
  }

  /** With the lock free, a sleeping writer has reason to: the pipe is full and
      someone may still read from it. */
  lemma SleepingWriters(r: seq<Sys>, i: nat, p: int)
    requires Run(r) && i < |r| && IsProc(r[i], p) && r[i].pc[p].WSleep? && r[i].lock == FREE
    ensures Full(r[i].ring) && r[i].readopen
  {
    InvRun(r, i);
    assert Ok(r[i], p);
  }

  /** With the lock free, a sleeping reader has reason to, the pipe being empty with someone left
      to write to it; unless some writer returned in the middle, killed or without readers. */
  lemma SleepingReaders(r: seq<Sys>, i: nat, p: int)
    requires Run(r) && i < |r| && IsProc(r[i], p) && r[i].pc[p].RSleep? && r[i].lock == FREE
    ensures (Empty(r[i].ring) && r[i].writeopen) || r[i].gaveUp
  {
    InvRun(r, i);
    assert Ok(r[i], p);
  }

  /** At most one process is past acquire. */
  lemma OneHolder(r: seq<Sys>, i: nat, p: int, q: int)
    requires Run(r) && i < |r| && IsProc(r[i], p) && IsProc(r[i], q) && Holds(r[i].pc[p]) && Holds(r[i].pc[q])
    ensures p == q
  {
    InvRun(r, i);
    assert Ok(r[i], p) && Ok(r[i], q);
  }

  // ---- what can happen

  function Last(r: seq<Sys>): (s: Sys)
    requires r != []
  {
    r[|r| - 1]
  }

  lemma Append(r: seq<Sys>, t: Sys, p: int) returns (r2: seq<Sys>)
    requires Run(r) && IsProc(Last(r), p) && Move(Last(r), t, p)
    ensures Run(r2) && r <= r2 && Last(r2) == t
  {
    r2 := r + [t];
    forall i ensures StepAt(r2, i) {
      assert StepAt(r, i);
    }
  }

  /** p goes from Idle to x with the lock, in two steps. */
  lemma Acquiring(r: seq<Sys>, p: int, n: int, write: bool) returns (r2: seq<Sys>)
    requires Run(r) && IsProc(Last(r), p) && Last(r).pc[p].Idle? && Last(r).lock == FREE
    ensures Run(r2) && r <= r2
    ensures Last(r2) == Last(r).(pc := Last(r).pc[p := if write then WLoop(0, n) else RWait(n)], lock := p)
  {
    var s := Last(r);
    var s1 := s.(pc := s.pc[p := if write then WAcquire(0, n) else RAcquire(n)]);
    assert write ==> Goto(s, s1, p, WAcquire(0, n));
    assert !write ==> Goto(s, s1, p, RAcquire(n));
    var r1 := Append(r, s1, p);
    var s2 := s1.(pc := s1.pc[p := if write then WLoop(0, n) else RWait(n)], lock := p);
    r2 := Append(r1, s2, p);
    assert s2.pc == s.pc[p := if write then WLoop(0, n) else RWait(n)];
  }

  /** The last wakeup, the release and the return. */
  lemma Returning(r: seq<Sys>, p: int) returns (r2: seq<Sys>)
    requires Run(r) && IsProc(Last(r), p) && (Last(r).pc[p].WEnd? || Last(r).pc[p].REnd?) && Last(r).lock == p
    ensures Run(r2) && r <= r2 && |Last(r2).pc| == |Last(r).pc| && Last(r2).pc[p].Idle? && Last(r2).lock == FREE
    ensures SameBytes(Last(r), Last(r2)) && SameEnds(Last(r), Last(r2))
  {
    var s := Last(r);
    var writers := s.pc[p].REnd?;
    var s1 := s.(pc := seq(|s.pc|, q requires 0 <= q < |s.pc| => if q == p then Release else Roused(s.pc[q], writers)));
    assert Wakes(s, s1, p, writers, Release);
    var r1 := Append(r, s1, p);
    r2 := Append(r1, s1.(pc := s1.pc[p := Idle], lock := FREE), p);
  }

  /** In every state of every run with the lock free, the read end open and room in the pipe,
      a process can write any byte. */
  lemma CanWrite(r: seq<Sys>, p: int, ch: int) returns (r2: seq<Sys>)
    requires Run(r) && IsProc(Last(r), p) && Last(r).pc[p].Idle? && Last(r).lock == FREE
    requires Last(r).readopen && !Full(Last(r).ring)
    ensures Run(r2) && r <= r2 && |Last(r2).pc| == |Last(r).pc| && Last(r2).pc[p].Idle? && Last(r2).lock == FREE
    ensures Last(r2).produced == Last(r).produced + [ch] && Last(r2).consumed == Last(r).consumed
  {
    InvRun(r, |r| - 1);
    var r1 := Acquiring(r, p, 1, true);
    var s := Last(r1);
    var ring := Ring(s.ring.data[s.ring.nwrite % PIPESIZE := ch], s.ring.nread, (s.ring.nwrite + 1) % WORDS);
    var t := s.(pc := s.pc[p := WLoop(1, 1)], ring := ring, produced := s.produced + [ch]);
    assert Puts(s, t, p, WLoop(1, 1));
    var r3 := Append(r1, t, p);
    var r4 := Append(r3, t.(pc := t.pc[p := WEnd]), p);
    r2 := Returning(r4, p);
  }

  /** And with a byte in the pipe, a process can read the next one. */
  lemma CanRead(r: seq<Sys>, p: int) returns (r2: seq<Sys>)
    requires Run(r) && IsProc(Last(r), p) && Last(r).pc[p].Idle? && Last(r).lock == FREE && !Empty(Last(r).ring)
    ensures Run(r2) && r <= r2 && |Last(r2).pc| == |Last(r).pc| && Last(r2).pc[p].Idle? && Last(r2).lock == FREE
    ensures |Last(r).consumed| < |Last(r).produced| && Last(r2).produced == Last(r).produced
    ensures Last(r2).consumed == Last(r).consumed + [Last(r).produced[|Last(r).consumed|]]
  {
    InvRun(r, |r| - 1);
    Stream(r, |r| - 1);
    var r1 := Acquiring(r, p, 1, false);
    var s := Last(r1);
    var s1 := s.(pc := s.pc[p := RCopy(0, 1)]);
    var r3 := Append(r1, s1, p);
    NextByte(s.ring, s.produced, s.consumed);
    var t := s1.(pc := s1.pc[p := RCopy(1, 1)], ring := Ring(s.ring.data, (s.ring.nread + 1) % WORDS, s.ring.nwrite),
                 consumed := s.consumed + [s.ring.data[s.ring.nread % PIPESIZE]]);
    assert Gets(s1, t, p, RCopy(1, 1));
    var r4 := Append(r3, t, p);
    var r5 := Append(r4, t.(pc := t.pc[p := REnd]), p);
    r2 := Returning(r5, p);
  }

  lemma NextByte(ring: Ring, produced: seq<int>, consumed: seq<int>)
    requires Means(ring, produced, consumed) && |consumed| < |produced|
    ensures 0 <= ring.nread && ring.data[ring.nread % PIPESIZE] == produced[|consumed|]
  {
    WrapIndex(|consumed|);
    var ch := produced[|consumed|];
    assert ring.data[|consumed| % PIPESIZE] == ch;
  }

  /** Two processes that have done nothing yet. */
  function Fresh(): (s: Sys) {
    Sys([Idle, Idle], FREE, Ring(Zeros(PIPESIZE), 0, 0), true, true, false, [], [])
  }

  function Zeros(n: nat): (s: seq<int>)
    ensures |s| == n
  {
    if n == 0 then [] else Zeros(n - 1) + [0]
  }

  /** The exception is real: a writer that is killed after its first byte leaves a reader asleep
      with that byte in the pipe and the lock free. */
  lemma ReaderLeftAsleep() returns (r: seq<Sys>)
    ensures Run(r) && |Last(r).pc| == 2 && Last(r).pc[0].RSleep? && Last(r).lock == FREE
    ensures !Empty(Last(r).ring) && Last(r).readopen && Last(r).writeopen && Last(r).gaveUp
  {
    var r0 := [Fresh()];
    forall i ensures StepAt(r0, i) {}
    var r1 := Acquiring(r0, 0, 1, false);
    var s1 := Last(r1);
    var s2 := s1.(pc := s1.pc[0 := RSleep(1)], lock := FREE);
    assert Locks(s1, s2, 0, RSleep(1), 0, FREE);
    var r2 := Append(r1, s2, 0);
    var r3 := Acquiring(r2, 1, 2, true);
    var s3 := Last(r3);
    var ring := Ring(s3.ring.data[0 := 7], 0, 1);
    var s4 := s3.(pc := s3.pc[1 := WLoop(1, 2)], ring := ring, produced := [7]);
    assert Puts(s3, s4, 1, WLoop(1, 2));
    var r4 := Append(r3, s4, 1);
    var s5 := s4.(pc := s4.pc[1 := Release], gaveUp := true);
    assert Quits(s4, s5, 1, 1);
    var r5 := Append(r4, s5, 1);
    r := Append(r5, s5.(pc := s5.pc[1 := Idle], lock := FREE), 1);
  }
}
