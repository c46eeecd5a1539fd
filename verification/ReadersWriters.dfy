/** The readers/writers monitor of reader_writer_monitor.c, run by any number of
    processes over the server of module Monitor.  Its waits are guarded by `if`,
    so safety rests on a signal handing the monitor straight to the waiter. */
module ReadersWriters {
  import opened Monitor

  const OK_TO_READ := 0
  const OK_TO_WRITE := 1
  const NUM_CONDS := 2

  /** Where a process is.  R* is StartRead, P* StopRead, W* StartWrite, Q*
      StopWrite; *Enter, *Wait, *Signal and *Leave are the monitor calls it is in
      or has just returned from. */
  datatype Pc =
    | Idle
    | REnter | RWait | RGo | RCounted | RSignal | RLeave | Reading
    | PEnter | PGone | PSignal | PLeave
    | WEnter | WWait | WGo | WBusy | WLeave | Writing
    | QEnter | QFree | QSignal | QLeave

  datatype Sys = Sys(mon: Monitor.Sys, pc: map<int, Pc>, numReaders: int, busyWriting: int)

  function At(pc: map<int, Pc>, p: int): (x: Pc) {
    if p in pc then pc[p] else Idle
  }

  datatype MaybeSend = Silent | Call(m: Msg)
  datatype Action = Action(send: MaybeSend, pc: Pc, numReaders: int, busyWriting: int)

  /** The code between two monitor calls; an idle process may start to read or
      to write. */
  function Act(x: Pc, n: int, busy: int, write: bool): (a: Action) {
    match x
    case Idle => Action(Call(Enter), if write then WEnter else REnter, n, busy)
    case REnter => if busy != 0 then Action(Call(Wait(OK_TO_READ)), RWait, n, busy) else Action(Silent, RGo, n, busy)
    case RWait => Action(Silent, RGo, n, busy)
    case RGo => Action(Silent, RCounted, n + 1, busy)
    case RCounted => Action(Call(Signal(OK_TO_READ)), RSignal, n, busy)
    case RSignal => Action(Call(Leave), RLeave, n, busy)
    case RLeave => Action(Silent, Reading, n, busy)
    case Reading => Action(Call(Enter), PEnter, n, busy)
    case PEnter => Action(Silent, PGone, n - 1, busy)
    case PGone =>
      if n == 0 then Action(Call(Signal(OK_TO_WRITE)), PSignal, n, busy) else Action(Call(Leave), PLeave, n, busy)
    case PSignal => Action(Call(Leave), PLeave, n, busy)
    case PLeave => Action(Silent, Idle, n, busy)
    case WEnter =>
      if n != 0 || busy != 0 then Action(Call(Wait(OK_TO_WRITE)), WWait, n, busy) else Action(Silent, WGo, n, busy)
    case WWait => Action(Silent, WGo, n, busy)
    case WGo => Action(Silent, WBusy, n, 1)
    case WBusy => Action(Call(Leave), WLeave, n, busy)
    case WLeave => Action(Silent, Writing, n, busy)
    case Writing => Action(Call(Enter), QEnter, n, busy)
    case QEnter => Action(Silent, QFree, n, 0)
    case QFree => Action(Call(Signal(OK_TO_READ)), QSignal, n, busy)
    case QSignal => Action(Call(Leave), QLeave, n, busy)
    case QLeave => Action(Silent, Idle, n, busy)
  }

  /** Outside the monitor between procedures and after a MonLeave. */
  predicate Outside(x: Pc) {
    x.Idle? || x.Reading? || x.Writing? || x.RLeave? || x.PLeave? || x.WLeave? || x.QLeave?
  }

  /** Process p, not blocked in a Send, runs to its next monitor call or access. */
  ghost predicate Local(s: Sys, t: Sys, p: int, write: bool) {
    var x := At(s.pc, p);
    var a := Act(x, s.numReaders, s.busyWriting, write);
    && p >= 0 && Of(s.mon.status, p) == (if Outside(x) then Out else In)
    && t.pc == s.pc[p := a.pc] && t.numReaders == a.numReaders && t.busyWriting == a.busyWriting
    && if a.send.Call? then SendStep(s.mon, t.mon, p, a.send.m) else t.mon == s.mon
  }

  ghost predicate ServerStep(s: Sys, t: Sys, p: int) {
    ReceiveStep(s.mon, t.mon, p) && t == s.(mon := t.mon)
  }

  ghost predicate RwNext(s: Sys, t: Sys) {
    || (exists p, write :: Local(s, t, p, write))
    || (exists p :: ServerStep(s, t, p))
  }

  ghost predicate RwInit(s: Sys) {
    && InitSys(s.mon) && s.mon.server.numConds == NUM_CONDS
    && s.pc == map[] && s.numReaders == 0 && s.busyWriting == 0
  }

  ghost predicate RwNextAt(r: seq<Sys>, i: int) {
    0 <= i < |r| - 1 ==> RwNext(r[i], r[i + 1])
  }

  ghost predicate RwRun(r: seq<Sys>) {
    r != [] && RwInit(r[0]) && forall i {:trigger RwNextAt(r, i)} :: RwNextAt(r, i)
  }

  // ---- who is reading, who is writing

  /** From numReaders++ to numReaders--. */
  predicate IsReader(x: Pc) {
    x.RCounted? || x.RSignal? || x.RLeave? || x.Reading? || x.PEnter?
  }

  /** From busyWriting = 1 to busyWriting = 0. */
  predicate IsWriter(x: Pc) {
    x.WBusy? || x.WLeave? || x.Writing? || x.QEnter?
  }

  function Readers(pc: map<int, Pc>): (ps: set<int>) {
    set p | p in pc && IsReader(pc[p])
  }

  function Writers(pc: map<int, Pc>): (ps: set<int>) {
    set p | p in pc && IsWriter(pc[p])
  }

  lemma Recount(pc: map<int, Pc>, p: int, y: Pc)
    ensures Readers(pc[p := y]) == if IsReader(y) then Readers(pc) + {p} else Readers(pc) - {p}
    ensures Writers(pc[p := y]) == if IsWriter(y) then Writers(pc) + {p} else Writers(pc) - {p}
  {}

  // ---- the invariant

  /** The monitor call a process at x is in. */
  function CallAt(x: Pc): (m: MaybeSend) {
    match x
    case REnter => Call(Enter)
    case PEnter => Call(Enter)
    case WEnter => Call(Enter)
    case QEnter => Call(Enter)
    case RWait => Call(Wait(OK_TO_READ))
    case WWait => Call(Wait(OK_TO_WRITE))
    case RSignal => Call(Signal(OK_TO_READ))
    case QSignal => Call(Signal(OK_TO_READ))
    case PSignal => Call(Signal(OK_TO_WRITE))
    case RLeave => Call(Leave)
    case PLeave => Call(Leave)
    case WLeave => Call(Leave)
    case QLeave => Call(Leave)
    case _ => Silent
  }

  predicate Coherent(x: Pc, st: Status) {
    || st == (if Outside(x) then Out else In)
    || (CallAt(x).Call? &&
        (st == Sent(CallAt(x).m, !CallAt(x).m.Enter?) || (!CallAt(x).m.Leave? && st == Parked(CallAt(x).m))))
  }

  /** What the process inside the monitor may rely on. */
  predicate Knows(x: Pc, st: Status, n: int, busy: int) {
    match x
    case RWait => busy == if st == In then 0 else 1
    case RGo => busy == 0
    case WWait => if st == In then busy == 0 && n == 0 else n != 0 || busy != 0
    case WGo => busy == 0 && n == 0
    case PGone => busy == 0
    case PSignal => st.Sent? ==> busy == 0 && n == 0
    case QFree => busy == 0
    case QSignal => st.Sent? ==> busy == 0
    case _ => true
  }

  /** The process inside is bound to signal OK_TO_READ before it leaves. */
  predicate Bound(x: Pc, st: Status) {
    x.QFree? || x.RGo? || x.RCounted? || (x.RWait? && st == In) || ((x.QSignal? || x.RSignal?) && st.Sent?)
  }

  ghost predicate Counts(s: Sys) {
    && s.numReaders == |Readers(s.pc)|
    && s.busyWriting == |Writers(s.pc)| <= 1
    && (s.busyWriting == 1 ==> s.numReaders == 0)
  }

  ghost predicate AllCoherent(s: Sys) {
    forall p :: Coherent(At(s.pc, p), Of(s.mon.status, p))
  }

  /** What holds on account of the process inside the monitor, if any; and if
      readers wait, a writer is active or that process will signal them. */
  ghost predicate OwnerOk(s: Sys)
    requires Ready(s.mon.server)
  {
    var o := s.mon.server.owner;
    && (o != NOBODY ==> Knows(At(s.pc, o), Of(s.mon.status, o), s.numReaders, s.busyWriting))
    && (|| s.mon.server.conds[OK_TO_READ] == []
        || s.busyWriting == 1
        || (o != NOBODY && Bound(At(s.pc, o), Of(s.mon.status, o))))
  }

  ghost predicate RwInv(s: Sys) {
    && MonInv(s.mon) && s.mon.server.numConds == NUM_CONDS
    && AllCoherent(s) && Counts(s) && OwnerOk(s)
  }

  // ---- local steps

  /** How the code between monitor calls moves a process. */
  lemma ActShape(x: Pc, n: int, busy: int, write: bool)
    ensures var a := Act(x, n, busy, write);
      && (a.send.Call? ==> CallAt(a.pc) == a.send && !a.send.m.Init?
                           && (a.send.m.Enter? <==> x.Idle? || x.Reading? || x.Writing?))
      && (a.send.Silent? ==> (Outside(x) <==> Outside(a.pc)))
      && a.numReaders == n + One(IsReader(a.pc)) - One(IsReader(x))
      && (IsWriter(a.pc) == IsWriter(x) ==> a.busyWriting == busy)
      && (IsWriter(a.pc) && !IsWriter(x) ==> x.WGo? && a.busyWriting == 1)
      && (!IsWriter(a.pc) && IsWriter(x) ==> a.busyWriting == 0)
      && (IsReader(a.pc) && !IsReader(x) ==> x.RGo?)
  {}

  function One(b: bool): (n: int) {
    if b then 1 else 0
  }

  lemma CoherentStep(s: Sys, t: Sys, p: int, write: bool)
    requires AllCoherent(s) && Local(s, t, p, write)
    ensures AllCoherent(t)
  {
    ActShape(At(s.pc, p), s.numReaders, s.busyWriting, write);
    forall q ensures Coherent(At(t.pc, q), Of(t.mon.status, q)) {
      assert Coherent(At(s.pc, q), Of(s.mon.status, q));
    }
  }

  lemma CountDelta(pc: map<int, Pc>, p: int, y: Pc)
    ensures |Readers(pc[p := y])| == |Readers(pc)| + One(IsReader(y)) - One(IsReader(At(pc, p)))
    ensures |Writers(pc[p := y])| == |Writers(pc)| + One(IsWriter(y)) - One(IsWriter(At(pc, p)))
    ensures IsWriter(At(pc, p)) ==> |Writers(pc)| >= 1
    ensures IsReader(At(pc, p)) ==> |Readers(pc)| >= 1
  {
    Recount(pc, p, y);
    assert p in Readers(pc) <==> IsReader(At(pc, p));
    assert p in Writers(pc) <==> IsWriter(At(pc, p));
  }

  lemma CountsStep(s: Sys, t: Sys, p: int, write: bool)
    requires Counts(s) && Local(s, t, p, write)
    requires At(s.pc, p).WGo? ==> s.numReaders == 0 && s.busyWriting == 0
    requires At(s.pc, p).RGo? ==> s.busyWriting == 0
    ensures Counts(t)
  {
    ActShape(At(s.pc, p), s.numReaders, s.busyWriting, write);
    CountDelta(s.pc, p, At(t.pc, p));
  }

  /** The process inside moves on: what it knew gives what it needs next. */
  lemma ActKnows(x: Pc, n: int, busy: int, write: bool)
    requires !Outside(x) && Knows(x, In, n, busy) && 0 <= busy <= 1
    requires busy == 1 ==> n == 0
    requires IsReader(x) ==> n >= 1
    ensures var a := Act(x, n, busy, write);
      var st := if a.send.Call? then Sent(a.send.m, true) else In;
      && Knows(a.pc, st, a.numReaders, a.busyWriting)
      && (Bound(x, In) ==> Bound(a.pc, st))
      && (busy == 1 && a.busyWriting != 1 ==> Bound(a.pc, st))
  {}

  lemma OwnerStep(s: Sys, t: Sys, p: int, write: bool)
    requires Ready(s.mon.server) && OwnerOk(s) && Counts(s) && Occupied(s.mon.status, s.mon.server.owner)
    requires Local(s, t, p, write)
    ensures t.mon.server == s.mon.server && OwnerOk(t)
  {
    var x := At(s.pc, p);
    assert Inside(Of(s.mon.status, p)) <==> p == s.mon.server.owner && p != NOBODY;
    CountDelta(s.pc, p, x);
    if Outside(x) {
      ActShape(x, s.numReaders, s.busyWriting, write);
    } else {
      ActKnows(x, s.numReaders, s.busyWriting, write);
    }
  }

  lemma LocalInv(s: Sys, t: Sys, p: int, write: bool)
    requires RwInv(s) && Local(s, t, p, write)
    ensures RwInv(t)
  {
    var a := Act(At(s.pc, p), s.numReaders, s.busyWriting, write);
    if a.send.Call? {
      SendInv(s.mon, t.mon, p, a.send.m);
    }
    CoherentStep(s, t, p, write);
    assert Inside(Of(s.mon.status, p)) <==> p == s.mon.server.owner && p != NOBODY;
    CountsStep(s, t, p, write);
    OwnerStep(s, t, p, write);
  }

  // ---- server steps

  /** After a release with everybody outside: the monitor is free, or its new
      owner came off the urgent or the entry queue. */
  ghost predicate PassedOn(st: map<int, Status>, t: Monitor.Sys) {
    var o := t.server.owner;
    || (o == NOBODY && t.status == st)
    || (o != NOBODY && (Of(st, o) == QUrgent || Of(st, o) == QEntry) && t.status == st[o := In])
  }

  lemma ReleaseEffect(s: Server, st: map<int, Status>)
    requires Queues(s, st) && Occupied(st, NOBODY)
    ensures PassedOn(st, Monitor.Sys(Release(s).server, Deliver(st, Release(s).replies)))
    ensures Release(s).server.conds == s.conds
  {
    assert Holds(Queue(s, QUrgent), st, QUrgent) && Holds(Queue(s, QEntry), st, QEntry);
    if |s.urgent| > 0 {
      assert s.urgent[0] in Queue(s, QUrgent) && s.urgent[0] >= 0;
      DeliverOne(st, s.urgent[0]);
    } else if |s.entry| > 0 {
      assert s.entry[0] in Queue(s, QEntry) && s.entry[0] >= 0;
      DeliverOne(st, s.entry[0]);
    }
  }

  lemma EnterEffect(s: Monitor.Sys, t: Monitor.Sys, p: int)
    requires MonInv(s) && ReceiveStep(s, t, p) && Of(s.status, p).m.Enter?
    ensures t.server.conds == s.server.conds
    ensures if s.server.locked then t.server.owner == s.server.owner && t.status == s.status[p := QEntry]
            else s.server.owner == NOBODY && t.server.owner == p && t.status == s.status[p := In]
  {
    DeliverOne(s.status, p);
  }

  lemma LeaveEffect(s: Monitor.Sys, t: Monitor.Sys, p: int)
    requires MonInv(s) && ReceiveStep(s, t, p) && Of(s.status, p) == Sent(Leave, true)
    ensures t.server.conds == s.server.conds && PassedOn(s.status[p := Out], t)
  {
    assert Inside(Of(s.status, p));
    DeliverOne(s.status, p);
    assert ([Reply(p, 0)] + Release(s.server).replies)[1..] == Release(s.server).replies;
    QueuesMove(s.server, s.status, s.server, p, Out);
    OccupiedMove(s.status, p, p, Out, NOBODY);
    ReleaseEffect(s.server, s.status[p := Out]);
  }

  lemma WaitEffect(s: Monitor.Sys, t: Monitor.Sys, p: int, c: int)
    requires MonInv(s) && ReceiveStep(s, t, p) && Of(s.status, p) == Sent(Wait(c), true)
    requires 0 <= c < s.server.numConds
    ensures t.server.conds == s.server.conds[c := s.server.conds[c] + [p]]
    ensures PassedOn(s.status[p := QCond(c)], t)
  {
    assert Inside(Of(s.status, p));
    var f := s.server.(conds := s.server.conds[c := s.server.conds[c] + [p]]);
    var st := s.status[p := QCond(c)];
    QueuesMove(s.server, s.status, f, p, QCond(c));
    OccupiedMove(s.status, p, p, QCond(c), NOBODY);
    ReleaseOthers(f, st, p);
    ReleaseEffect(f, st);
  }

  lemma SignalEffect(s: Monitor.Sys, t: Monitor.Sys, p: int, c: int)
    requires MonInv(s) && ReceiveStep(s, t, p) && Of(s.status, p) == Sent(Signal(c), true)
    requires 0 <= c < s.server.numConds
    ensures if s.server.conds[c] == [] then t == Monitor.Sys(s.server, s.status[p := In]) && s.server.owner == p
            else var w := s.server.conds[c][0];
              && w >= 0 && w != p && Of(s.status, w) == QCond(c)
              && t.server.owner == w && t.status == s.status[p := QUrgent][w := In]
              && t.server.conds == s.server.conds[c := s.server.conds[c][1..]]
  {
    assert Inside(Of(s.status, p));
    if s.server.conds[c] == [] {
      DeliverOne(s.status, p);
    } else {
      SignalWakes(s, t, p, c);
      var x := QCond(c);
      assert IsQueue(x) && Holds(Queue(s.server, x), s.status, x);
      assert s.server.conds[c][0] in Queue(s.server, x);
    }
  }

  /** Counts and pcs are untouched by the server, so coherence of the processes
      it moved is all that is left to see. */
  lemma Coherence(s: Sys, t: Sys, p: int, y: Status, w: int, z: Status)
    requires AllCoherent(s) && t.pc == s.pc && t.mon.status == s.mon.status[p := y][w := z]
    requires Coherent(At(s.pc, w), z) && (p != w ==> Coherent(At(s.pc, p), y))
    ensures AllCoherent(t)
  {
    forall q ensures Coherent(At(t.pc, q), Of(t.mon.status, q)) {
      assert Coherent(At(s.pc, q), Of(s.mon.status, q));
    }
  }

  /** The process that gets the monitor in a hand-over is past its signal or
      just entering: it relies on nothing. */
  lemma PassedOnInv(s: Sys, t: Sys, p: int, y: Status)
    requires Ready(t.mon.server) && AllCoherent(s) && Counts(s) && t == s.(mon := t.mon)
    requires PassedOn(s.mon.status[p := y], t.mon) && Coherent(At(s.pc, p), y) && y != QUrgent && y != QEntry
    requires t.mon.server.conds[OK_TO_READ] == [] || t.busyWriting == 1
    ensures AllCoherent(t) && Counts(t) && OwnerOk(t)
  {
    var st, o := s.mon.status[p := y], t.mon.server.owner;
    if o == NOBODY {
      Coherence(s, t, p, y, p, y);
    } else {
      assert o != p;
      assert Coherent(At(s.pc, o), Of(s.mon.status, o));
      Coherence(s, t, p, y, o, In);
    }
  }

  lemma ServerEnter(s: Sys, t: Sys, p: int)
    requires RwInv(s) && ServerStep(s, t, p) && Of(s.mon.status, p).m.Enter?
    ensures RwInv(t)
  {
    ReceiveInv(s.mon, t.mon, p);
    EnterEffect(s.mon, t.mon, p);
    assert Coherent(At(s.pc, p), Of(s.mon.status, p));
    var y := if s.mon.server.locked then QEntry else In;
    Coherence(s, t, p, y, p, y);
  }

  /** Who leaves has left no reader to be woken. */
  lemma LeaverDone(s: Sys, p: int)
    requires RwInv(s) && Of(s.mon.status, p).Sent? && Of(s.mon.status, p).m.Leave?
    ensures Of(s.mon.status, p) == Sent(Leave, true) && Coherent(At(s.pc, p), Out)
    ensures s.mon.server.conds[OK_TO_READ] == [] || s.busyWriting == 1
  {
    assert Coherent(At(s.pc, p), Of(s.mon.status, p));
    assert Inside(Of(s.mon.status, p)) <==> p == s.mon.server.owner && p != NOBODY;
  }

  lemma ServerLeave(s: Sys, t: Sys, p: int)
    requires RwInv(s) && ServerStep(s, t, p) && Of(s.mon.status, p).m.Leave?
    ensures RwInv(t)
  {
    LeaverDone(s, p);
    ReceiveInv(s.mon, t.mon, p);
    LeaveEffect(s.mon, t.mon, p);
    PassedOnInv(s, t, p, Out);
  }

  /** Who waits has left no reader to be woken either, and as a reader waits for a writer. */
  lemma WaiterDone(s: Sys, p: int, c: int)
    requires RwInv(s) && Of(s.mon.status, p).Sent? && Of(s.mon.status, p).m == Wait(c)
    ensures Of(s.mon.status, p) == Sent(Wait(c), true) && Coherent(At(s.pc, p), QCond(c)) && 0 <= c < NUM_CONDS
    ensures (c != OK_TO_READ && s.mon.server.conds[OK_TO_READ] == []) || s.busyWriting == 1
  {
    assert Coherent(At(s.pc, p), Of(s.mon.status, p));
    assert Inside(Of(s.mon.status, p)) <==> p == s.mon.server.owner && p != NOBODY;
  }

  lemma ServerWait(s: Sys, t: Sys, p: int)
    requires RwInv(s) && ServerStep(s, t, p) && Of(s.mon.status, p).m.Wait?
    ensures RwInv(t)
  {
    var c := Of(s.mon.status, p).m.cond;
    WaiterDone(s, p, c);
    ReceiveInv(s.mon, t.mon, p);
    WaitEffect(s.mon, t.mon, p, c);
    PassedOnInv(s, t, p, QCond(c));
  }

  lemma ServerSignal(s: Sys, t: Sys, p: int)
    requires RwInv(s) && ServerStep(s, t, p) && Of(s.mon.status, p).m.Signal?
    ensures RwInv(t)
  {
    ReceiveInv(s.mon, t.mon, p);
    assert Coherent(At(s.pc, p), Of(s.mon.status, p)) && Inside(Of(s.mon.status, p));
    var c := Of(s.mon.status, p).m.cond;
    SignalEffect(s.mon, t.mon, p, c);
    if s.mon.server.conds[c] == [] {
      Coherence(s, t, p, In, p, In);
    } else {
      Wakes(s, t, p, c, s.mon.server.conds[c][0]);
    }
  }

  /** The signal's meaning: what the signaller established holds for the waiter,
      which runs before anything else can. */
  lemma Wakes(s: Sys, t: Sys, p: int, c: int, w: int)
    requires Ready(s.mon.server) && AllCoherent(s) && Counts(s) && OwnerOk(s)
    requires Ready(t.mon.server) && t == s.(mon := t.mon)
    requires p == s.mon.server.owner != NOBODY && Of(s.mon.status, p) == Sent(Signal(c), true)
    requires Of(s.mon.status, w) == QCond(c) && w != NOBODY && w != p
    requires t.mon.server.owner == w && t.mon.status == s.mon.status[p := QUrgent][w := In]
    requires c != OK_TO_READ ==> t.mon.server.conds[OK_TO_READ] == s.mon.server.conds[OK_TO_READ]
    ensures AllCoherent(t) && OwnerOk(t)
  {
    assert Coherent(At(s.pc, p), Of(s.mon.status, p)) && Coherent(At(s.pc, w), Of(s.mon.status, w));
    CountDelta(s.pc, p, At(s.pc, p));
    Coherence(s, t, p, QUrgent, w, In);
  }

  lemma RwInvStep(s: Sys, t: Sys)
    requires RwInv(s) && RwNext(s, t)
    ensures RwInv(t)
  {
    if p, write :| Local(s, t, p, write) {
      LocalInv(s, t, p, write);
    } else {
      var p :| ServerStep(s, t, p);
      assert Mannered(Of(s.mon.status, p)) && Coherent(At(s.pc, p), Of(s.mon.status, p));
      match Of(s.mon.status, p).m
      case Enter => ServerEnter(s, t, p);
      case Leave => ServerLeave(s, t, p);
      case Wait(_) => ServerWait(s, t, p);
      case Signal(_) => ServerSignal(s, t, p);
      case _ =>
    }
  }

  lemma {:induction false} RwInvRun(r: seq<Sys>)
    requires RwRun(r)
    ensures RwInv(r[|r| - 1])
    decreases |r|
  {
    var n := |r| - 1;
    if n == 0 {
      InitInv(r[0].mon);
      assert Readers(map[]) == {} && Writers(map[]) == {};
    } else {
      RwRunPart(r, n);
      RwInvRun(r[..n]);
      assert RwNextAt(r, n - 1);
      RwInvStep(r[n - 1], r[n]);
    }
  }

  lemma RwRunPart(r: seq<Sys>, n: nat)
    requires RwRun(r) && 0 < n <= |r|
    ensures RwRun(r[..n])
  {
    forall i ensures RwNextAt(r[..n], i) {
      assert RwNextAt(r, i);
    }
  }

  // ---- what the monitor is for

  /** In every state of every run the shared variables equal the true numbers of
      readers and writers, and a writer excludes readers and other writers. */
  lemma ReadersWritersSafety(r: seq<Sys>, p: int, q: int)
    requires RwRun(r)
    ensures var s := r[|r| - 1];
      && s.numReaders == |Readers(s.pc)| && s.busyWriting == |Writers(s.pc)|
      && (IsWriter(At(s.pc, p)) ==> !IsReader(At(s.pc, q)))
      && (IsWriter(At(s.pc, p)) && IsWriter(At(s.pc, q)) ==> p == q)
  {
    RwInvRun(r);
    var s := r[|r| - 1];
    CountDelta(s.pc, p, Idle);
    CountDelta(s.pc, q, Idle);
    assert IsWriter(At(s.pc, p)) ==> p in Writers(s.pc);
    assert IsWriter(At(s.pc, q)) ==> q in Writers(s.pc);
    if p in Writers(s.pc) && q in Writers(s.pc) {
      OnlyElement(Writers(s.pc), p, q);
    }
  }

  lemma OnlyElement(ps: set<int>, p: int, q: int)
    requires |ps| <= 1 && p in ps && q in ps
    ensures p == q
  {
    assert |ps - {p}| == 0;
    assert q !in ps - {p};
  }

  /** A reader is left waiting in an unlocked monitor only while a writer is
      writing: no reader's wake-up is ever lost. */
  lemma NoReaderForgotten(r: seq<Sys>)
    requires RwRun(r)
    ensures var s := r[|r| - 1];
      && |s.mon.server.conds| == MAX_CONDS
      && (!s.mon.server.locked && s.mon.server.conds[OK_TO_READ] != [] ==> Writers(s.pc) != {})
  {
    RwInvRun(r);
  }
}
