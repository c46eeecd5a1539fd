/** Writers that wait for an idle readers/writers monitor.  StopWrite signals
    readers only, so a writer can be left waiting with nobody active; here is
    such a run, and exactly when it happens. */
module RwWriters {
  import opened Monitor
  import opened ReadersWriters
  import RwRuns

  /** Nobody reads or writes, by the shared variables. */
  predicate Still(s: ReadersWriters.Sys) {
    s.numReaders == 0 && s.busyWriting == 0
  }

  predicate WritersWait(s: ReadersWriters.Sys) {
    |s.mon.server.conds| == MAX_CONDS && s.mon.server.conds[OK_TO_WRITE] != []
  }

  /** The step from r[j] is StopWrite's busyWriting = 0, and nobody has been active since, up to r[k]. */
  ghost predicate StoppedAt(r: seq<ReadersWriters.Sys>, j: int, k: int) {
    0 <= j < k < |r| && r[j].busyWriting == 1 && forall m :: j < m <= k ==> Still(r[m])
  }

  ghost predicate PassedOverAt(r: seq<ReadersWriters.Sys>, j: int, k: int) {
    StoppedAt(r, j, k) && WritersWait(r[j + 1])
  }

  /** The last to be active was a writer, and when it stopped other writers were waiting. */
  ghost predicate PassedOver(r: seq<ReadersWriters.Sys>, k: int) {
    exists j :: PassedOverAt(r, j, k)
  }

  lemma PassedOverNext(r: seq<ReadersWriters.Sys>, k: int)
    requires 0 <= k < |r| - 1
    ensures PassedOver(r, k + 1) <==>
            Still(r[k + 1]) && if Still(r[k]) then PassedOver(r, k) else r[k].busyWriting == 1 && WritersWait(r[k + 1])
  {
    if PassedOver(r, k + 1) {
      var j :| PassedOverAt(r, j, k + 1);
      assert Still(r[k + 1]);
      if j < k {
        assert Still(r[k]) && PassedOverAt(r, j, k);
      }
    }
    if Still(r[k + 1]) && Still(r[k]) && PassedOver(r, k) {
      var j :| PassedOverAt(r, j, k);
      assert PassedOverAt(r, j, k + 1);
    } else if Still(r[k + 1]) && r[k].busyWriting == 1 && WritersWait(r[k + 1]) {
      assert PassedOverAt(r, k, k + 1);
    }
  }

  // ---- the invariant

  /** The last reader, on its way to signal a writer. */
  predicate Handing(x: ReadersWriters.Pc, st: Status) {
    x.PGone? || (x.PSignal? && st.Sent?)
  }

  /** A writer that is about to set busyWriting. */
  predicate Taking(x: ReadersWriters.Pc, st: Status) {
    x.WGo? || (x.WWait? && st == In)
  }

  /** While nobody is active, writers wait exactly if they were passed over,
      unless the process inside is about to change that. */
  ghost predicate Tale(s: ReadersWriters.Sys, passed: bool) {
    var o := s.mon.server.owner;
    var x, st := At(s.pc, o), Of(s.mon.status, o);
    Still(s) ==>
      && (o != NOBODY && Handing(x, st) ==> !passed)
      && (o == NOBODY || (!Handing(x, st) && !Taking(x, st)) ==> (WritersWait(s) <==> passed))
  }

  /** What is known of the past in t, given what was known in s. */
  predicate Then(s: ReadersWriters.Sys, t: ReadersWriters.Sys, passed: bool): (b: bool) {
    Still(t) && if Still(s) then passed else s.busyWriting == 1 && WritersWait(t)
  }

  /** The code between monitor calls, outside. */
  lemma TaleOutside(s: ReadersWriters.Sys, t: ReadersWriters.Sys, p: int, write: bool, passed: bool)
    requires Local(s, t, p, write) && Tale(s, passed) && Outside(At(s.pc, p)) && p != s.mon.server.owner
    ensures Tale(t, Then(s, t, passed))
  {
    ActShape(At(s.pc, p), s.numReaders, s.busyWriting, write);
  }

  /** And inside. */
  lemma TaleInside(s: ReadersWriters.Sys, t: ReadersWriters.Sys, p: int, write: bool, passed: bool)
    requires Local(s, t, p, write) && Tale(s, passed) && !Outside(At(s.pc, p)) && p == s.mon.server.owner
    requires Knows(At(s.pc, p), In, s.numReaders, s.busyWriting) && (IsReader(At(s.pc, p)) ==> s.busyWriting == 0)
    requires IsWriter(At(s.pc, p)) ==> s.busyWriting == 1
    requires 0 <= s.busyWriting <= 1 && s.numReaders >= if IsReader(At(s.pc, p)) then 1 else 0
    ensures Tale(t, Then(s, t, passed))
  {}

  lemma TaleLocal(s: ReadersWriters.Sys, t: ReadersWriters.Sys, p: int, write: bool, passed: bool)
    requires RwInv(s) && Local(s, t, p, write) && Tale(s, passed)
    ensures Tale(t, Then(s, t, passed))
  {
    var x := At(s.pc, p);
    assert Inside(Of(s.mon.status, p)) <==> p == s.mon.server.owner && p != NOBODY;
    if Outside(x) {
      TaleOutside(s, t, p, write, passed);
    } else {
      CountDelta(s.pc, p, x);
      TaleInside(s, t, p, write, passed);
    }
  }

  lemma TaleEnter(s: ReadersWriters.Sys, t: ReadersWriters.Sys, p: int, passed: bool)
    requires RwInv(s) && ServerStep(s, t, p) && Of(s.mon.status, p).m.Enter? && Tale(s, passed)
    ensures Tale(t, Then(s, t, passed))
  {
    EnterEffect(s.mon, t.mon, p);
    assert Coherent(At(s.pc, p), Of(s.mon.status, p)) && Mannered(Of(s.mon.status, p));
    assert Inside(Of(s.mon.status, p)) <==> p == s.mon.server.owner && p != NOBODY;
  }

  /** Who gets the monitor passed on is neither handing over nor taking it. */
  lemma TalePassed(s: ReadersWriters.Sys, t: ReadersWriters.Sys, p: int, y: Status, passed: bool)
    requires AllCoherent(s) && t == s.(mon := t.mon) && PassedOn(s.mon.status[p := y], t.mon)
    requires y != QUrgent && y != QEntry && (WritersWait(t) <==> WritersWait(s))
    requires Still(s) ==> (WritersWait(s) <==> passed)
    ensures Tale(t, Then(s, t, passed))
  {
    var o := t.mon.server.owner;
    if o != NOBODY {
      assert Coherent(At(s.pc, o), Of(s.mon.status, o));
    }
  }

  lemma TaleLeave(s: ReadersWriters.Sys, t: ReadersWriters.Sys, p: int, passed: bool)
    requires RwInv(s) && ServerStep(s, t, p) && Of(s.mon.status, p).m.Leave? && Tale(s, passed)
    ensures Tale(t, Then(s, t, passed))
  {
    LeaverDone(s, p);
    assert Coherent(At(s.pc, p), Of(s.mon.status, p));
    assert Inside(Of(s.mon.status, p)) <==> p == s.mon.server.owner && p != NOBODY;
    LeaveEffect(s.mon, t.mon, p);
    TalePassed(s, t, p, Out, passed);
  }

  lemma TaleWait(s: ReadersWriters.Sys, t: ReadersWriters.Sys, p: int, passed: bool)
    requires RwInv(s) && ServerStep(s, t, p) && Of(s.mon.status, p).m.Wait? && Tale(s, passed)
    ensures Tale(t, Then(s, t, passed))
  {
    assert Coherent(At(s.pc, p), Of(s.mon.status, p));
    assert Inside(Of(s.mon.status, p)) <==> p == s.mon.server.owner && p != NOBODY;
    assert !Still(s);
  }

  lemma TaleSignal(s: ReadersWriters.Sys, t: ReadersWriters.Sys, p: int, passed: bool)
    requires RwInv(s) && ServerStep(s, t, p) && Of(s.mon.status, p).m.Signal? && Tale(s, passed)
    ensures Tale(t, Then(s, t, passed))
  {
    var c := Of(s.mon.status, p).m.cond;
    assert Coherent(At(s.pc, p), Of(s.mon.status, p));
    assert Inside(Of(s.mon.status, p)) <==> p == s.mon.server.owner && p != NOBODY;
    SignalEffect(s.mon, t.mon, p, c);
    if s.mon.server.conds[c] != [] {
      var w := s.mon.server.conds[c][0];
      assert Coherent(At(s.pc, w), Of(s.mon.status, w));
    }
  }

  lemma TaleStep(s: ReadersWriters.Sys, t: ReadersWriters.Sys, passed: bool)
    requires RwInv(s) && RwNext(s, t) && Tale(s, passed)
    ensures Tale(t, Then(s, t, passed))
  {
    if p, write :| Local(s, t, p, write) {
      TaleLocal(s, t, p, write, passed);
    } else {
      var p :| ServerStep(s, t, p);
      assert Mannered(Of(s.mon.status, p)) && Coherent(At(s.pc, p), Of(s.mon.status, p));
      match Of(s.mon.status, p).m
      case Enter => TaleEnter(s, t, p, passed);
      case Leave => TaleLeave(s, t, p, passed);
      case Wait(_) => TaleWait(s, t, p, passed);
      case Signal(_) => TaleSignal(s, t, p, passed);
      case _ =>
    }
  }

  lemma {:induction false} TaleRun(r: seq<ReadersWriters.Sys>, k: nat)
    requires RwRun(r) && k < |r|
    ensures Tale(r[k], PassedOver(r, k))
    decreases k
  {
    if k > 0 {
      TaleRun(r, k - 1);
      RwRuns.RunUpTo(r, k - 1);
      assert RwNextAt(r, k - 1);
      TaleStep(r[k - 1], r[k], PassedOver(r, k - 1));
      PassedOverNext(r, k - 1);
    }
  }

  /** In every run, while the monitor is unlocked and nobody is active, writers
      are waiting if and only if a writer was the last to be active and other
      writers were waiting when it stopped. */
  lemma WritersPassedOver(r: seq<ReadersWriters.Sys>, k: nat)
    requires RwRun(r) && k < |r| && !r[k].mon.server.locked
    requires Readers(r[k].pc) == {} && Writers(r[k].pc) == {}
    ensures WritersWait(r[k]) <==> PassedOver(r, k)
  {
    TaleRun(r, k);
    RwRuns.RunUpTo(r, k);
  }

  // ---- such a run

  /** Nobody waits for the monitor itself. */
  ghost predicate NoQueue(st: map<int, Status>) {
    forall q :: Of(st, q) != QUrgent && Of(st, q) != QEntry
  }

  lemma StillNoQueue(st: map<int, Status>, p: int, x: Status)
    requires NoQueue(st) && x != QUrgent && x != QEntry
    ensures NoQueue(st[p := x])
  {
    var u := st[p := x];
    forall q ensures Of(u, q) != QUrgent && Of(u, q) != QEntry {
      assert Of(u, q) == if q == p then x else Of(st, q);
    }
  }

  /** p enters, leaves or waits; what that does to it, and nothing else. */
  predicate Moved(s: ReadersWriters.Sys, t: ReadersWriters.Sys, p: int, x: ReadersWriters.Pc, st: Status) {
    t.pc == s.pc[p := x] && t.mon.status == s.mon.status[p := st]
  }

  predicate SameVars(s: ReadersWriters.Sys, t: ReadersWriters.Sys) {
    t.numReaders == s.numReaders && t.busyWriting == s.busyWriting
  }

  lemma Enters(r: seq<ReadersWriters.Sys>, p: int) returns (r2: seq<ReadersWriters.Sys>)
    requires RwRun(r) && RwRuns.MayEnter(RwRuns.Last(r), p)
    ensures RwRuns.Extends(r, r2)
    ensures var s, t := RwRuns.Last(r), RwRuns.Last(r2);
      && Moved(s, t, p, RwRuns.Act1(s, p, true).pc, In) && SameVars(s, t)
      && t.mon.server.conds == s.mon.server.conds
  {
    var r1 := RwRuns.Going(r, p, true);
    r2 := RwRuns.Serving(r1, p);
    EnterEffect(RwRuns.Last(r1).mon, RwRuns.Last(r2).mon, p);
  }

  lemma Leaves(r: seq<ReadersWriters.Sys>, p: int) returns (r2: seq<ReadersWriters.Sys>)
    requires RwRun(r) && p >= 0 && Of(RwRuns.Last(r).mon.status, p) == In && !Outside(At(RwRuns.Last(r).pc, p))
    requires RwRuns.Act1(RwRuns.Last(r), p, false).send == Call(Leave) && NoQueue(RwRuns.Last(r).mon.status)
    ensures RwRuns.Extends(r, r2)
    ensures var s, t := RwRuns.Last(r), RwRuns.Last(r2);
      && Moved(s, t, p, RwRuns.AfterLeave(At(s.pc, p)), Out) && SameVars(s, t)
      && t.mon.server.conds == s.mon.server.conds && !t.mon.server.locked
  {
    var r1 := RwRuns.Going(r, p, false);
    StillNoQueue(RwRuns.Last(r).mon.status, p, Sent(Leave, true));
    var r3 := IsLetOut(r1, p);
    r2 := RwRuns.Going(r3, p, false);
  }

  lemma IsLetOut(r: seq<ReadersWriters.Sys>, p: int) returns (r2: seq<ReadersWriters.Sys>)
    requires RwRun(r) && Of(RwRuns.Last(r).mon.status, p) == Sent(Leave, true) && NoQueue(RwRuns.Last(r).mon.status)
    ensures RwRuns.Extends(r, r2)
    ensures var s, t := RwRuns.Last(r), RwRuns.Last(r2);
      && t.pc == s.pc && t.mon.status == s.mon.status[p := Out] && SameVars(s, t)
      && t.mon.server.conds == s.mon.server.conds && !t.mon.server.locked
  {
    r2 := RwRuns.Serving(r, p);
    LeaveEffect(RwRuns.Last(r).mon, RwRuns.Last(r2).mon, p);
    NobodyNext(RwRuns.Last(r).mon.status, p, Out, RwRuns.Last(r2).mon);
    RwInvRun(r2);
  }

  lemma NobodyNext(st: map<int, Status>, p: int, x: Status, t: Monitor.Sys)
    requires NoQueue(st)
    requires PassedOn(st[p := x], t) && x != QUrgent && x != QEntry
    ensures t.server.owner == NOBODY && t.status == st[p := x]
  {
    var o := t.server.owner;
    assert Of(st[p := x], o) == if o == p then x else Of(st, o);
  }

  /** A writer that finds another one writing waits. */
  lemma WaitsToWrite(r: seq<ReadersWriters.Sys>, p: int) returns (r2: seq<ReadersWriters.Sys>)
    requires RwRun(r) && p >= 0 && Of(RwRuns.Last(r).mon.status, p) == In && At(RwRuns.Last(r).pc, p).WEnter?
    requires RwRuns.Last(r).busyWriting != 0 && NoQueue(RwRuns.Last(r).mon.status)
    ensures RwRuns.Extends(r, r2)
    ensures var s, t := RwRuns.Last(r), RwRuns.Last(r2);
      && Moved(s, t, p, WWait, QCond(OK_TO_WRITE)) && SameVars(s, t) && !t.mon.server.locked
      && |s.mon.server.conds| == MAX_CONDS
      && t.mon.server.conds == s.mon.server.conds[OK_TO_WRITE := s.mon.server.conds[OK_TO_WRITE] + [p]]
  {
    var r1 := RwRuns.Going(r, p, false);
    r2 := RwRuns.Serving(r1, p);
    WaitEffect(RwRuns.Last(r1).mon, RwRuns.Last(r2).mon, p, OK_TO_WRITE);
    StillNoQueue(RwRuns.Last(r).mon.status, p, Sent(Wait(OK_TO_WRITE), true));
    NobodyNext(RwRuns.Last(r1).mon.status, p, QCond(OK_TO_WRITE), RwRuns.Last(r2).mon);
    RwInvRun(r2);
  }

  /** Process 1 writes, undisturbed. */
  lemma OneWrites() returns (r: seq<ReadersWriters.Sys>)
    ensures RwRun(r) && RwRuns.MayEnter(RwRuns.Last(r), 1) && RwRuns.Last(r).pc == map[1 := Writing]
    ensures RwRuns.Last(r).mon.status == map[1 := Out]
    ensures RwRuns.Last(r).mon.server.conds == RwRuns.Fresh().mon.server.conds
    ensures RwRuns.Last(r).numReaders == 0 && RwRuns.Last(r).busyWriting == 1
  {
    var r0 := [RwRuns.Fresh()];
    forall i ensures RwNextAt(r0, i) {}
    assert RwRun(r0);
    var r1 := Enters(r0, 1);
    var r2 := RwRuns.Going(r1, 1, true);
    var r3 := RwRuns.Going(r2, 1, true);
    r := Leaves(r3, 1);
  }

  /** Process 2 waits for it. */
  lemma OtherWaits() returns (r: seq<ReadersWriters.Sys>)
    ensures RwRun(r) && RwRuns.MayEnter(RwRuns.Last(r), 1) && RwRuns.Last(r).pc == map[1 := Writing, 2 := WWait]
    ensures RwRuns.Last(r).mon.status == map[1 := Out, 2 := QCond(OK_TO_WRITE)]
    ensures RwRuns.Last(r).numReaders == 0
    ensures RwRuns.Last(r).mon.server.conds == RwRuns.Fresh().mon.server.conds[OK_TO_WRITE := [2]]
  {
    var r1 := OneWrites();
    var r2 := Enters(r1, 2);
    r := WaitsToWrite(r2, 2);
    assert [] + [2] == [2];
  }

  /** A run that leaves a writer waiting in an unlocked monitor with nobody active. */
  lemma WriterLeftWaiting() returns (r: seq<ReadersWriters.Sys>)
    ensures RwRun(r) && var s := RwRuns.Last(r);
      !s.mon.server.locked && WritersWait(s) && Readers(s.pc) == {} && Writers(s.pc) == {}
  {
    var r1 := OtherWaits();
    var r2 := Enters(r1, 1);
    var r3 := RwRuns.Going(r2, 1, true);
    var r4 := SignalsNobody(r3, 1);
    r := Leaves(r4, 1);
  }

  lemma SignalsNobody(r: seq<ReadersWriters.Sys>, p: int) returns (r2: seq<ReadersWriters.Sys>)
    requires RwRun(r) && p >= 0 && Of(RwRuns.Last(r).mon.status, p) == In && At(RwRuns.Last(r).pc, p).QFree?
    requires |RwRuns.Last(r).mon.server.conds| == MAX_CONDS && RwRuns.Last(r).mon.server.conds[OK_TO_READ] == []
    ensures RwRuns.Extends(r, r2)
    ensures var s, t := RwRuns.Last(r), RwRuns.Last(r2);
      Moved(s, t, p, QSignal, In) && SameVars(s, t) && t.mon.server == s.mon.server
  {
    var r1 := RwRuns.Going(r, p, false);
    r2 := RwRuns.Serving(r1, p);
    SignalEffect(RwRuns.Last(r1).mon, RwRuns.Last(r2).mon, p, OK_TO_READ);
  }
}
