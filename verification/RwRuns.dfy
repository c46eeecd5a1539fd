/** What the readers/writers monitor lets happen: who waits and why, who gets
    in, and to whom the last reader hands over. */
module RwRuns {
  import opened Monitor
  import opened ReadersWriters

  // ---- nobody waits without a reason

  /** Process p asks to wait on condition c in the step from s to t. */
  predicate Waits(s: ReadersWriters.Sys, t: ReadersWriters.Sys, p: int, c: int) {
    Of(s.mon.status, p) == In && Of(t.mon.status, p) == Sent(Wait(c), true)
  }

  lemma RunUpTo(r: seq<ReadersWriters.Sys>, k: nat)
    requires RwRun(r) && k < |r|
    ensures RwRun(r[..k + 1]) && RwInv(r[k])
  {
    RwRunPart(r, k + 1);
    RwInvRun(r[..k + 1]);
  }

  lemma WaitStep(s: ReadersWriters.Sys, t: ReadersWriters.Sys, p: int, c: int)
    requires RwInv(s) && RwNext(s, t) && Waits(s, t, p, c)
    ensures c == OK_TO_READ || c == OK_TO_WRITE
    ensures if c == OK_TO_READ then Writers(s.pc) != {} else Readers(s.pc) != {} || Writers(s.pc) != {}
    ensures if c == OK_TO_READ then s.busyWriting != 0 else s.numReaders != 0 || s.busyWriting != 0
  {
    if q, write :| Local(s, t, q, write) {
      if q == p {
        ActWaits(At(s.pc, p), s.numReaders, s.busyWriting, write);
      }
    } else {
      var q :| ServerStep(s, t, q);
      ReceivedKeeps(s.mon, t.mon, q, p);
    }
  }

  lemma ActWaits(x: ReadersWriters.Pc, n: int, busy: int, write: bool)
    ensures var a := Act(x, n, busy, write);
      && (a.send == Call(Wait(OK_TO_READ)) ==> busy != 0)
      && (a.send == Call(Wait(OK_TO_WRITE)) ==> n != 0 || busy != 0)
      && (a.send.Call? && a.send.m.Wait? ==> a.send.m.cond == OK_TO_READ || a.send.m.cond == OK_TO_WRITE)
  {}

  /** The server makes nobody ask for anything. */
  lemma ReceivedKeeps(s: Monitor.Sys, t: Monitor.Sys, q: int, p: int)
    requires MonInv(s) && ReceiveStep(s, t, q) && Of(s.status, p) == In
    ensures Of(t.status, p) == In
  {
    var m := Of(s.status, q).m;
    var replies := Serve(s.server, q, m).replies;
    AnsweredAtMostOnce(s, q);
    var st := if Answers(replies, q) then s.status else s.status[q := Parked(m)];
    DeliverTold(st, replies, p);
    if Answers(replies, p) {
      AnswersWhom(replies, p);
    }
  }

  /** In every run a process waits to read only while somebody writes, and to
      write only while somebody reads or writes. */
  lemma NoIdleWait(r: seq<ReadersWriters.Sys>, k: nat, p: int, c: int)
    requires RwRun(r) && k + 1 < |r| && Waits(r[k], r[k + 1], p, c)
    ensures c == OK_TO_READ || c == OK_TO_WRITE
    ensures if c == OK_TO_READ then Writers(r[k].pc) != {} else Readers(r[k].pc) != {} || Writers(r[k].pc) != {}
    ensures if c == OK_TO_READ then r[k].busyWriting != 0 else r[k].numReaders != 0 || r[k].busyWriting != 0
  {
    RunUpTo(r, k);
    assert RwNextAt(r, k);
    WaitStep(r[k], r[k + 1], p, c);
  }

  // ---- the last reader hands over to the first waiting writer

  /** p has brought numReaders to 0 inside the monitor, and w is the first to wait for that. */
  predicate HandingOver(s: ReadersWriters.Sys, p: int, w: int) {
    && Ready(s.mon.server) && s.mon.server.owner == p >= 0 && s.numReaders == 0
    && s.mon.server.conds[OK_TO_WRITE] != [] && s.mon.server.conds[OK_TO_WRITE][0] == w
    && (|| (At(s.pc, p).PGone? && Of(s.mon.status, p) == In)
        || (At(s.pc, p).PSignal? && Of(s.mon.status, p) == Sent(Signal(OK_TO_WRITE), true)))
  }

  predicate HandedOver(s: ReadersWriters.Sys, w: int) {
    s.mon.server.owner == w >= 0 && Of(s.mon.status, w) == In && At(s.pc, w).WWait?
  }

  lemma HandLocal(s: ReadersWriters.Sys, t: ReadersWriters.Sys, q: int, write: bool, p: int, w: int)
    requires RwInv(s) && Local(s, t, q, write) && HandingOver(s, p, w)
    ensures HandingOver(t, p, w)
  {
    assert Inside(Of(s.mon.status, q)) <==> q == p && q != NOBODY;
    ActShape(At(s.pc, q), s.numReaders, s.busyWriting, write);
  }

  lemma HandServer(s: ReadersWriters.Sys, t: ReadersWriters.Sys, q: int, p: int, w: int)
    requires RwInv(s) && ServerStep(s, t, q) && HandingOver(s, p, w)
    ensures if q == p then HandedOver(t, w) else HandingOver(t, p, w)
  {
    assert Coherent(At(s.pc, q), Of(s.mon.status, q)) && Mannered(Of(s.mon.status, q));
    assert Inside(Of(s.mon.status, q)) <==> q == p && q != NOBODY;
    if q == p {
      SignalEffect(s.mon, t.mon, p, OK_TO_WRITE);
      assert Coherent(At(s.pc, w), Of(s.mon.status, w));
    } else {
      EnterEffect(s.mon, t.mon, q);
    }
  }

  lemma HandStep(s: ReadersWriters.Sys, t: ReadersWriters.Sys, p: int, w: int)
    requires RwInv(s) && RwNext(s, t) && HandingOver(s, p, w)
    ensures HandingOver(t, p, w) || HandedOver(t, w)
  {
    if q, write :| Local(s, t, q, write) {
      HandLocal(s, t, q, write, p, w);
    } else {
      var q :| ServerStep(s, t, q);
      HandServer(s, t, q, p, w);
    }
  }

  /** From where p hands over to w until w has the monitor. */
  ghost predicate UntilHanded(r: seq<ReadersWriters.Sys>, i: nat, j: nat, p: int, w: int) {
    i < j < |r| && HandedOver(r[j], w) && forall m :: i <= m < j ==> HandingOver(r[m], p, w)
  }

  /** In every run, after the last reader has gone with writers waiting, the
      first of them owns the monitor before anybody else but that reader does. */
  lemma {:induction false} LastReaderWakesWriter(r: seq<ReadersWriters.Sys>, i: nat, k: nat, p: int, w: int)
    requires RwRun(r) && i <= k < |r| && HandingOver(r[i], p, w)
    ensures || (forall m :: i <= m <= k ==> HandingOver(r[m], p, w))
            || (exists j: nat :: j <= k && UntilHanded(r, i, j, p, w))
    decreases k
  {
    if i < k {
      LastReaderWakesWriter(r, i, k - 1, p, w);
      if forall m :: i <= m <= k - 1 ==> HandingOver(r[m], p, w) {
        HandAt(r, k - 1, p, w);
        assert HandedOver(r[k], w) ==> UntilHanded(r, i, k, p, w);
      }
    }
  }

  lemma HandAt(r: seq<ReadersWriters.Sys>, k: nat, p: int, w: int)
    requires RwRun(r) && k + 1 < |r| && HandingOver(r[k], p, w)
    ensures HandingOver(r[k + 1], p, w) || HandedOver(r[k + 1], w)
  {
    RunUpTo(r, k);
    assert RwNextAt(r, k);
    HandStep(r[k], r[k + 1], p, w);
  }

  // ---- a process gets in when it may

  /** p runs on to its next monitor call or access. */
  function Went(s: ReadersWriters.Sys, p: int, write: bool): (t: ReadersWriters.Sys) {
    var a := Act(At(s.pc, p), s.numReaders, s.busyWriting, write);
    var mon := if a.send.Call?
               then s.mon.(status := s.mon.status[p := Sent(a.send.m, Of(s.mon.status, p) == In)]) else s.mon;
    ReadersWriters.Sys(mon, s.pc[p := a.pc], a.numReaders, a.busyWriting)
  }

  /** The server takes p's request. */
  function Served1(s: ReadersWriters.Sys, p: int): (t: ReadersWriters.Sys)
    requires Ready(s.mon.server) && Of(s.mon.status, p).Sent?
  {
    var m := Of(s.mon.status, p).m;
    var r := Serve(s.mon.server, p, m);
    var st := if Answers(r.replies, p) then s.mon.status else s.mon.status[p := Parked(m)];
    s.(mon := Monitor.Sys(r.server, Deliver(st, r.replies)))
  }

  /** r2 is r and more states. */
  ghost predicate Extends(r: seq<ReadersWriters.Sys>, r2: seq<ReadersWriters.Sys>) {
    RwRun(r) && RwRun(r2) && r <= r2
  }

  function Last(r: seq<ReadersWriters.Sys>): (s: ReadersWriters.Sys)
    requires r != []
  {
    r[|r| - 1]
  }

  lemma Append(r: seq<ReadersWriters.Sys>, t: ReadersWriters.Sys) returns (r2: seq<ReadersWriters.Sys>)
    requires RwRun(r) && RwNext(Last(r), t)
    ensures Extends(r, r2) && Last(r2) == t
  {
    r2 := r + [t];
    forall i ensures RwNextAt(r2, i) {
      assert RwNextAt(r, i);
    }
  }

  lemma Going(r: seq<ReadersWriters.Sys>, p: int, write: bool) returns (r2: seq<ReadersWriters.Sys>)
    requires RwRun(r) && p >= 0 && Of(Last(r).mon.status, p) == if Outside(At(Last(r).pc, p)) then Out else In
    ensures Extends(r, r2) && Last(r2) == Went(Last(r), p, write)
  {
    var s := Last(r);
    ActShape(At(s.pc, p), s.numReaders, s.busyWriting, write);
    assert Local(s, Went(s, p, write), p, write);
    r2 := Append(r, Went(s, p, write));
  }

  lemma Serving(r: seq<ReadersWriters.Sys>, p: int) returns (r2: seq<ReadersWriters.Sys>)
    requires RwRun(r) && Of(Last(r).mon.status, p).Sent?
    ensures MonInv(Last(r).mon) && Last(r).mon.server.numConds == NUM_CONDS && Extends(r, r2)
    ensures ReceiveStep(Last(r).mon, Last(r2).mon, p) && Last(r2) == Last(r).(mon := Last(r2).mon)
  {
    RwInvRun(r);
    var s := Last(r);
    assert ServerStep(s, Served1(s, p), p);
    r2 := Append(r, Served1(s, p));
  }

  /** p is outside, between procedures, and nobody is in the monitor. */
  predicate MayEnter(s: ReadersWriters.Sys, p: int) {
    && p >= 0 && (At(s.pc, p).Idle? || At(s.pc, p).Reading? || At(s.pc, p).Writing?)
    && Of(s.mon.status, p) == Out && !s.mon.server.locked
  }

  /** What the code of p does next. */
  function Act1(s: ReadersWriters.Sys, p: int, write: bool): (a: Action) {
    Act(At(s.pc, p), s.numReaders, s.busyWriting, write)
  }

  /** MonEnter of an unlocked monitor. */
  lemma Entering(r: seq<ReadersWriters.Sys>, p: int, write: bool) returns (r2: seq<ReadersWriters.Sys>)
    requires RwRun(r) && MayEnter(Last(r), p)
    ensures Extends(r, r2)
    ensures var s, t := Last(r), Last(r2);
      && t.pc == s.pc[p := Act1(s, p, write).pc] && t.numReaders == s.numReaders
      && t.busyWriting == s.busyWriting && Of(t.mon.status, p) == In
      && t.mon.server.conds == s.mon.server.conds
  {
    var r1 := Going(r, p, write);
    r2 := Serving(r1, p);
    EnterEffect(Last(r1).mon, Last(r2).mon, p);
  }

  /** Where MonLeave and the return from the procedure lead. */
  function AfterLeave(x: ReadersWriters.Pc): (y: ReadersWriters.Pc) {
    if x.RSignal? then Reading else if x.WBusy? then Writing else ReadersWriters.Idle
  }

  /** MonLeave, whoever gets the monitor next. */
  lemma Leaving(r: seq<ReadersWriters.Sys>, p: int) returns (r2: seq<ReadersWriters.Sys>)
    requires RwRun(r) && p >= 0 && Of(Last(r).mon.status, p) == In && !Outside(At(Last(r).pc, p))
    requires Act1(Last(r), p, false).send == Call(Leave)
    ensures Extends(r, r2) && At(Last(r2).pc, p) == AfterLeave(At(Last(r).pc, p))
  {
    var r1 := Going(r, p, false);
    var r3 := ServingLeave(r1, p);
    r2 := Going(r3, p, false);
  }

  lemma ServingLeave(r: seq<ReadersWriters.Sys>, p: int) returns (r2: seq<ReadersWriters.Sys>)
    requires RwRun(r) && Of(Last(r).mon.status, p) == Sent(Leave, true)
    ensures Extends(r, r2) && Of(Last(r2).mon.status, p) == Out && Last(r2).pc == Last(r).pc
  {
    r2 := Serving(r, p);
    LeftOut(Last(r).mon, Last(r2).mon, p);
  }

  lemma LeftOut(s: Monitor.Sys, t: Monitor.Sys, p: int)
    requires MonInv(s) && ReceiveStep(s, t, p) && Of(s.status, p) == Sent(Leave, true)
    ensures Of(t.status, p) == Out
  {
    assert Inside(Of(s.status, p));
    LeaveEffect(s, t, p);
  }

  /** MonSignal that wakes nobody. */
  lemma Signalling(r: seq<ReadersWriters.Sys>, p: int, c: int) returns (r2: seq<ReadersWriters.Sys>)
    requires RwRun(r) && p >= 0 && Of(Last(r).mon.status, p) == In && !Outside(At(Last(r).pc, p))
    requires Act1(Last(r), p, false).send == Call(Signal(c)) && 0 <= c < NUM_CONDS
    requires |Last(r).mon.server.conds| == MAX_CONDS && Last(r).mon.server.conds[c] == []
    ensures Extends(r, r2) && Of(Last(r2).mon.status, p) == In
    ensures At(Last(r2).pc, p) == Act1(Last(r), p, false).pc
  {
    var r1 := Going(r, p, false);
    r2 := Serving(r1, p);
    assert Inside(Of(Last(r1).mon.status, p));
    SignalEffect(Last(r1).mon, Last(r2).mon, p, c);
  }

  /** The code of p goes on inside the monitor. */
  lemma Silently(r: seq<ReadersWriters.Sys>, p: int) returns (r2: seq<ReadersWriters.Sys>)
    requires RwRun(r) && p >= 0 && Of(Last(r).mon.status, p) == In && !Outside(At(Last(r).pc, p))
    requires Act1(Last(r), p, false).send.Silent?
    ensures Extends(r, r2) && Last(r2).mon == Last(r).mon
    ensures var a := Act1(Last(r), p, false);
      At(Last(r2).pc, p) == a.pc && Last(r2).numReaders == a.numReaders && Last(r2).busyWriting == a.busyWriting
  {
    r2 := Going(r, p, false);
  }

  lemma NobodyWrites(r: seq<ReadersWriters.Sys>)
    requires RwRun(r) && Writers(Last(r).pc) == {} && !Last(r).mon.server.locked
    ensures Last(r).busyWriting == 0 && |Last(r).mon.server.conds| == MAX_CONDS
    ensures Last(r).mon.server.conds[OK_TO_READ] == []
  {
    RwInvRun(r);
    NoReaderForgotten(r);
  }

  lemma NobodyReads(r: seq<ReadersWriters.Sys>)
    requires RwRun(r) && Readers(Last(r).pc) == {}
    ensures Last(r).numReaders == 0
  {
    RwInvRun(r);
  }

  /** From every state of every run in which nobody is in the monitor and nobody
      writes, a process can start to read without anybody else doing anything. */
  lemma CanRead(r: seq<ReadersWriters.Sys>, p: int) returns (r2: seq<ReadersWriters.Sys>)
    requires RwRun(r) && MayEnter(Last(r), p) && At(Last(r).pc, p).Idle? && Writers(Last(r).pc) == {}
    ensures Extends(r, r2) && At(Last(r2).pc, p).Reading?
  {
    NobodyWrites(r);
    var r1 := Entering(r, p, false);
    var r3 := Silently(r1, p);
    var r4 := Silently(r3, p);
    var r5 := Signalling(r4, p, OK_TO_READ);
    r2 := Leaving(r5, p);
  }

  /** The same for writing, if nobody reads or writes. */
  lemma CanWrite(r: seq<ReadersWriters.Sys>, p: int) returns (r2: seq<ReadersWriters.Sys>)
    requires RwRun(r) && MayEnter(Last(r), p) && At(Last(r).pc, p).Idle?
    requires Writers(Last(r).pc) == {} && Readers(Last(r).pc) == {}
    ensures Extends(r, r2) && At(Last(r2).pc, p).Writing?
  {
    NobodyWrites(r);
    NobodyReads(r);
    var r1 := Entering(r, p, true);
    var r3 := Silently(r1, p);
    var r4 := Silently(r3, p);
    r2 := Leaving(r4, p);
  }

  /** A reader can stop, if it need not hand over to a writer. */
  lemma CanStopReading(r: seq<ReadersWriters.Sys>, p: int) returns (r2: seq<ReadersWriters.Sys>)
    requires RwRun(r) && MayEnter(Last(r), p) && At(Last(r).pc, p).Reading?
    requires |Last(r).mon.server.conds| == MAX_CONDS
    requires Last(r).numReaders > 1 || Last(r).mon.server.conds[OK_TO_WRITE] == []
    ensures Extends(r, r2) && At(Last(r2).pc, p).Idle?
  {
    var r1 := Entering(r, p, false);
    var r3 := Silently(r1, p);
    r2 := Gone(r3, p);
  }

  lemma Gone(r: seq<ReadersWriters.Sys>, p: int) returns (r2: seq<ReadersWriters.Sys>)
    requires RwRun(r) && p >= 0 && Of(Last(r).mon.status, p) == In && At(Last(r).pc, p).PGone?
    requires |Last(r).mon.server.conds| == MAX_CONDS
    requires Last(r).numReaders != 0 || Last(r).mon.server.conds[OK_TO_WRITE] == []
    ensures Extends(r, r2) && At(Last(r2).pc, p).Idle?
  {
    if Last(r).numReaders == 0 {
      var r1 := Signalling(r, p, OK_TO_WRITE);
      r2 := Leaving(r1, p);
    } else {
      r2 := Leaving(r, p);
    }
  }

  /** A writer can stop, if no reader waits for that. */
  lemma CanStopWriting(r: seq<ReadersWriters.Sys>, p: int) returns (r2: seq<ReadersWriters.Sys>)
    requires RwRun(r) && MayEnter(Last(r), p) && At(Last(r).pc, p).Writing?
    requires |Last(r).mon.server.conds| == MAX_CONDS && Last(r).mon.server.conds[OK_TO_READ] == []
    ensures Extends(r, r2) && At(Last(r2).pc, p).Idle?
  {
    var r1 := Entering(r, p, false);
    var r3 := Silently(r1, p);
    var r4 := Signalling(r3, p, OK_TO_READ);
    r2 := Leaving(r4, p);
  }

  /** Nobody has done anything yet. */
  function Fresh(): (s: ReadersWriters.Sys) {
    var conds := [[], [], [], [], [], [], [], []];
    ReadersWriters.Sys(Monitor.Sys(Server(false, NOBODY, [], [], conds, NUM_CONDS), map[]), map[], 0, 0)
  }

  /** There are runs in which a process reads, and runs in which one writes. */
  lemma BothHappen(p: int) returns (reading: seq<ReadersWriters.Sys>, writing: seq<ReadersWriters.Sys>)
    requires p >= 0
    ensures RwRun(reading) && At(Last(reading).pc, p).Reading?
    ensures RwRun(writing) && At(Last(writing).pc, p).Writing?
  {
    var r := [Fresh()];
    forall i ensures RwNextAt(r, i) {}
    assert RwRun(r) && Readers(map[]) == {} && Writers(map[]) == {};
    reading := CanRead(r, p);
    writing := CanWrite(r, p);
  }
}
