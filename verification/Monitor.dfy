/** The Hoare monitor server of Monitor.c and what holds in every run of it. */
module Monitor {
  import opened Sets

  const MAX_CONDS := 8
  const NOBODY := -1

  /** MonMsg: types 1 to 5, and anything else. */
  datatype Msg = Enter | Leave | Wait(cond: int) | Signal(cond: int) | Init(conds: int) | Unknown
  datatype Reply = Reply(to: int, code: int)

  datatype Server = Server(
    locked: bool, owner: int,
    entry: seq<int>, urgent: seq<int>, conds: seq<seq<int>>, numConds: int)

  datatype Served = Served(server: Server, replies: seq<Reply>)

  predicate Ready(s: Server) {
    |s.conds| == MAX_CONDS && s.numConds <= MAX_CONDS
  }

  /** Hand the monitor on: to the first urgent process, else to the first one
      waiting to enter, else to nobody. */
  function Release(s: Server): (r: Served) {
    if |s.urgent| > 0 then
      Served(s.(locked := true, owner := s.urgent[0], urgent := s.urgent[1..]), [Reply(s.urgent[0], 0)])
    else if |s.entry| > 0 then
      Served(s.(locked := true, owner := s.entry[0], entry := s.entry[1..]), [Reply(s.entry[0], 0)])
    else
      Served(s.(locked := false, owner := NOBODY), [])
  }

  function Serve(s: Server, p: int, m: Msg): (r: Served)
    requires Ready(s)
    ensures Ready(r.server)
  {
    match m
    case Enter =>
      if !s.locked then Served(s.(locked := true, owner := p), [Reply(p, 0)])
      else Served(s.(entry := s.entry + [p]), [])
    case Leave =>
      if s.owner == p then
        var r := Release(s);
        Served(r.server, [Reply(p, 0)] + r.replies)
      else Served(s, [Reply(p, -1)])
    case Wait(c) =>
      if s.owner == p && 0 <= c < s.numConds then
        Release(s.(conds := s.conds[c := s.conds[c] + [p]]))
      else Served(s, [Reply(p, -1)])
    case Signal(c) =>
      if s.owner == p && 0 <= c < s.numConds then
        if |s.conds[c]| > 0 then
          Served(s.(conds := s.conds[c := s.conds[c][1..]], urgent := s.urgent + [p], owner := s.conds[c][0]),
                 [Reply(s.conds[c][0], 0)])
        else Served(s, [Reply(p, 0)])
      else Served(s, [Reply(p, -1)])
    case Init(n) =>
      Served(s.(numConds := if n > MAX_CONDS then MAX_CONDS else n), [Reply(p, 0)])
    case Unknown =>
      Served(s, [Reply(p, -1)])
  }

  /** The server process with its static variables. */
  class MonServer {
    var locked: bool
    var owner: int
    var entry: seq<int>
    var urgent: seq<int>
    var conds: seq<seq<int>>
    var numConds: int

    ghost function State(): (s: Server)
      reads this
    {
      Server(locked, owner, entry, urgent, conds, numConds)
    }

    constructor ()
      ensures State() == Server(false, NOBODY, [], [], seq(MAX_CONDS, _ => []), 0)
    {
      locked, owner, entry, urgent, conds, numConds := false, NOBODY, [], [], seq(MAX_CONDS, _ => []), 0;
    }

    /** Urgent processes before entering ones; shared by leave and wait. */
    method PassOn() returns (replies: seq<Reply>)
      modifies this
      ensures State() == Release(old(State())).server && replies == Release(old(State())).replies
    {
      locked, owner := false, NOBODY;
      replies := [];
      if |urgent| > 0 {
        var next := urgent[0];
        urgent := urgent[1..];
        locked, owner := true, next;
        replies := [Reply(next, 0)];
      } else if |entry| > 0 {
        var next := entry[0];
        entry := entry[1..];
        locked, owner := true, next;
        replies := [Reply(next, 0)];
      }
    }

    /** One trip round the message loop. */
    method Handle(sender: int, msg: Msg) returns (replies: seq<Reply>)
      requires Ready(State())
      modifies this
      ensures State() == Serve(old(State()), sender, msg).server
      ensures replies == Serve(old(State()), sender, msg).replies
    {
      replies := [];
      match msg
      case Enter =>
        if !locked {
          locked, owner := true, sender;
          replies := [Reply(sender, 0)];
        } else {
          entry := entry + [sender];
        }
      case Leave =>
        if owner == sender {
          var next := PassOn();
          replies := [Reply(sender, 0)] + next;
        } else {
          replies := [Reply(sender, -1)];
        }
      case Wait(c) =>
        if owner == sender && 0 <= c < numConds {
          conds := conds[c := conds[c] + [sender]];
          replies := PassOn();
        } else {
          replies := [Reply(sender, -1)];
        }
      case Signal(c) =>
        if owner == sender && 0 <= c < numConds {
          if |conds[c]| > 0 {
            var woken := conds[c][0];
            conds := conds[c := conds[c][1..]];
            urgent := urgent + [sender];
            owner := woken;
            replies := [Reply(woken, 0)];
          } else {
            replies := [Reply(sender, 0)];
          }
        } else {
          replies := [Reply(sender, -1)];
        }
      case Init(n) =>
        numConds := if n > MAX_CONDS then MAX_CONDS else n;
        replies := [Reply(sender, 0)];
      case Unknown =>
        replies := [Reply(sender, -1)];
    }
  }

  // ---- the server with its clients

  /** What a client is doing: outside the monitor, inside it, blocked in Send
      with message m not yet received (from inside the monitor or not), or
      blocked in Send with its message sitting in one of the queues. */
  datatype Status = Out | In | Sent(m: Msg, inside: bool) | QEntry | QUrgent | QCond(c: int)

  datatype Sys = Sys(server: Server, status: map<int, Status>)

  function Of(st: map<int, Status>, p: int): (x: Status) {
    if p in st then st[p] else Out
  }

  /** What a reply makes of the client that gets it. */
  function Answered(was: Status, code: int): (x: Status) {
    match was
    case Sent(m, inside) =>
      if code != 0 then (if inside then In else Out)
      else if m.Leave? then Out
      else if m.Init? then (if inside then In else Out)
      else In
    case QEntry => In
    case QUrgent => In
    case QCond(_) => In
    case _ => was
  }

  function Deliver(st: map<int, Status>, replies: seq<Reply>): (r: map<int, Status>)
    decreases |replies|
  {
    if replies == [] then st
    else Deliver(st[replies[0].to := Answered(Of(st, replies[0].to), replies[0].code)], replies[1..])
  }

  predicate Answers(replies: seq<Reply>, p: int) {
    replies != [] && (replies[0].to == p || Answers(replies[1..], p))
  }

  lemma AnswersOne(reply: Reply, p: int)
    ensures Answers([reply], p) <==> reply.to == p
  {
    assert [reply][1..] == [];
  }

  /** Where an unanswered request is parked. */
  function Parked(m: Msg): (x: Status) {
    match m
    case Wait(c) => QCond(c)
    case Signal(_) => QUrgent
    case _ => QEntry
  }

  ghost predicate InitSys(s: Sys) {
    && Ready(s.server) && s.status == map[]
    && s.server == Server(false, NOBODY, [], [], s.server.conds, s.server.numConds)
    && forall c :: 0 <= c < MAX_CONDS ==> s.server.conds[c] == []
  }

  /** A client with no request outstanding sends one; it does not enter twice,
      and initialisation is over. */
  ghost predicate SendStep(s: Sys, t: Sys, p: int, m: Msg) {
    && p >= 0 && (Of(s.status, p) == Out || Of(s.status, p) == In) && !m.Init?
    && (m.Enter? ==> Of(s.status, p) == Out)
    && t == s.(status := s.status[p := Sent(m, Of(s.status, p) == In)])
  }

  /** The server takes the request of p and answers whom Serve says; if p is not
      among them it stays blocked. */
  ghost predicate ReceiveStep(s: Sys, t: Sys, p: int) {
    && Ready(s.server) && Of(s.status, p).Sent?
    && var m := Of(s.status, p).m;
       var r := Serve(s.server, p, m);
       var st := if Answers(r.replies, p) then s.status else s.status[p := Parked(m)];
       t == Sys(r.server, Deliver(st, r.replies))
  }

  ghost predicate Next(s: Sys, t: Sys) {
    || (exists p, m :: SendStep(s, t, p, m))
    || (exists p :: ReceiveStep(s, t, p))
  }

  ghost predicate NextAt(r: seq<Sys>, i: int) {
    0 <= i < |r| - 1 ==> Next(r[i], r[i + 1])
  }

  ghost predicate Run(r: seq<Sys>) {
    r != [] && InitSys(r[0]) && forall i {:trigger NextAt(r, i)} :: NextAt(r, i)
  }

  // ---- the invariant

  predicate IsQueue(x: Status) {
    x == QEntry || x == QUrgent || (x.QCond? && 0 <= x.c < MAX_CONDS)
  }

  /** The queue that a queued status names. */
  function Queue(s: Server, x: Status): (q: seq<int>)
    requires Ready(s) && IsQueue(x)
  {
    match x
    case QEntry => s.entry
    case QUrgent => s.urgent
    case QCond(c) => s.conds[c]
  }

  /** q holds exactly the clients with status x, once each. */
  ghost predicate Holds(q: seq<int>, st: map<int, Status>, x: Status) {
    Distinct(q) && forall p :: p in q <==> Of(st, p) == x
  }

  ghost predicate Queues(s: Server, st: map<int, Status>) {
    && Ready(s)
    && (forall x :: IsQueue(x) ==> Holds(Queue(s, x), st, x))
    && (forall p :: Of(st, p).QCond? ==> IsQueue(Of(st, p)))
  }

  /** One client's status goes from x to y, leaving the front of queue x and
      joining the back of queue y where these are queues. */
  lemma QueuesMove(s: Server, st: map<int, Status>, t: Server, p: int, y: Status)
    requires Queues(s, st) && Ready(t) && Of(st, p) != y && (y.QCond? ==> IsQueue(y))
    requires IsQueue(Of(st, p)) ==> Queue(s, Of(st, p)) == [p] + Queue(t, Of(st, p))
    requires IsQueue(y) ==> Queue(t, y) == Queue(s, y) + [p]
    requires forall z :: IsQueue(z) && z != Of(st, p) && z != y ==> Queue(t, z) == Queue(s, z)
    ensures Queues(t, st[p := y])
  {
    var x, u := Of(st, p), st[p := y];
    forall z | IsQueue(z) ensures Holds(Queue(t, z), u, z) {
      assert Holds(Queue(s, z), st, z);
      if z == x {
        HoldsTail(Queue(s, z), st, z, y);
      } else if z == y {
        HoldsAppend(Queue(s, z), st, z, p);
      } else {
        HoldsSame(Queue(s, z), st, z, p, y);
      }
    }
    forall q ensures Of(u, q).QCond? ==> IsQueue(Of(u, q)) {
      assert Of(st, q).QCond? ==> IsQueue(Of(st, q));
    }
  }

  lemma HoldsSame(q: seq<int>, st: map<int, Status>, z: Status, p: int, y: Status)
    requires Holds(q, st, z) && z != y && z != Of(st, p)
    ensures Holds(q, st[p := y], z)
  {
    var u := st[p := y];
    forall r ensures r in q <==> Of(u, r) == z {
      assert r in q <==> Of(st, r) == z;
    }
  }

  lemma HoldsTail(q: seq<int>, st: map<int, Status>, x: Status, y: Status)
    requires Holds(q, st, x) && q != [] && x != y
    ensures Holds(q[1..], st[q[0] := y], x)
  {
    var u := st[q[0] := y];
    DistinctTail(q);
    forall p ensures p in q[1..] <==> Of(u, p) == x {
      assert p in q <==> p == q[0] || p in q[1..];
    }
  }

  lemma HoldsAppend(q: seq<int>, st: map<int, Status>, x: Status, p: int)
    requires Holds(q, st, x) && Of(st, p) != x
    ensures Holds(q + [p], st[p := x], x)
  {
    DistinctAppend(q, p);
  }

  predicate Inside(x: Status) {
    x == In || (x.Sent? && x.inside)
  }

  /** No re-entrant enter, no late initialisation. */
  predicate Mannered(x: Status) {
    x.Sent? ==> !x.m.Init? && (x.m.Enter? ==> !x.inside)
  }

  /** p alone is inside the monitor; nobody is if p is NOBODY. */
  ghost predicate Occupied(st: map<int, Status>, owner: int) {
    && (forall p :: Inside(Of(st, p)) <==> p == owner && p != NOBODY)
    && (forall p :: p in st ==> p >= 0)
    && (forall p :: Mannered(Of(st, p)))
  }

  lemma OccupiedMove(st: map<int, Status>, was: int, p: int, y: Status, owner: int)
    requires Occupied(st, was) && p >= 0 && Mannered(y)
    requires owner == (if Inside(y) then p else if was == p then NOBODY else was)
    requires Inside(y) ==> was == p || was == NOBODY
    ensures Occupied(st[p := y], owner)
  {
    var u := st[p := y];
    forall q ensures Inside(Of(u, q)) <==> q == owner && q != NOBODY {
      assert Inside(Of(st, q)) <==> q == was && q != NOBODY;
    }
    forall q ensures Mannered(Of(u, q)) {
      assert Mannered(Of(st, q));
    }
  }

  ghost predicate MonInv(s: Sys) {
    && Queues(s.server, s.status)
    && Occupied(s.status, s.server.owner)
    && (s.server.locked <==> s.server.owner != NOBODY)
    && (!s.server.locked ==> s.server.entry == [] && s.server.urgent == [])
  }

  lemma HandOver(s: Server, st: map<int, Status>)
    requires Queues(s, st) && Occupied(st, NOBODY)
    ensures MonInv(Sys(Release(s).server, Deliver(st, Release(s).replies)))
  {
    var r := Release(s);
    if |s.urgent| > 0 {
      Grant(s, st, QUrgent, r.server);
    } else if |s.entry| > 0 {
      Grant(s, st, QEntry, r.server);
    } else {
      forall x | IsQueue(x) ensures Queue(r.server, x) == Queue(s, x) {}
    }
  }

  /** The first client of queue x is answered and gets the monitor. */
  lemma Grant(s: Server, st: map<int, Status>, x: Status, t: Server)
    requires Queues(s, st) && Occupied(st, NOBODY) && IsQueue(x) && Queue(s, x) != [] && Ready(t)
    requires Queue(t, x) == Queue(s, x)[1..] && t.owner == Queue(s, x)[0] && t.locked
    requires forall z :: IsQueue(z) && z != x ==> Queue(t, z) == Queue(s, z)
    ensures Deliver(st, [Reply(t.owner, 0)]) == st[t.owner := In]
    ensures MonInv(Sys(t, st[t.owner := In]))
  {
    var p := t.owner;
    assert Holds(Queue(s, x), st, x);
    assert p in Queue(s, x) && Of(st, p) == x;
    DeliverOne(st, p);
    QueuesMove(s, st, t, p, In);
    OccupiedMove(st, NOBODY, p, In, p);
  }

  lemma DeliverOne(st: map<int, Status>, p: int)
    ensures Deliver(st, [Reply(p, 0)]) == st[p := Answered(Of(st, p), 0)]
    ensures Deliver(st, [Reply(p, -1)]) == st[p := Answered(Of(st, p), -1)]
  {}

  /** A client whose request is refused is where it was before it asked. */
  lemma Refused(s: Sys, p: int)
    requires MonInv(s) && Of(s.status, p).Sent?
    ensures MonInv(Sys(s.server, s.status[p := if Of(s.status, p).inside then In else Out]))
  {
    var y := if Of(s.status, p).inside then In else Out;
    QueuesMove(s.server, s.status, s.server, p, y);
    OccupiedMove(s.status, s.server.owner, p, y, s.server.owner);
  }

  lemma ReceiveEnter(s: Sys, t: Sys, p: int)
    requires MonInv(s) && ReceiveStep(s, t, p) && Of(s.status, p).m.Enter?
    ensures MonInv(t)
  {
    if s.server.locked {
      QueuesMove(s.server, s.status, t.server, p, QEntry);
      OccupiedMove(s.status, s.server.owner, p, QEntry, s.server.owner);
    } else {
      DeliverOne(s.status, p);
      QueuesMove(s.server, s.status, t.server, p, In);
      OccupiedMove(s.status, s.server.owner, p, In, p);
    }
  }

  lemma ReceiveLeave(s: Sys, t: Sys, p: int)
    requires MonInv(s) && ReceiveStep(s, t, p) && Of(s.status, p).m.Leave?
    ensures MonInv(t)
  {
    DeliverOne(s.status, p);
    if s.server.owner == p {
      var r := Release(s.server);
      assert ([Reply(p, 0)] + r.replies)[1..] == r.replies;
      QueuesMove(s.server, s.status, s.server, p, Out);
      OccupiedMove(s.status, p, p, Out, NOBODY);
      HandOver(s.server, s.status[p := Out]);
    } else {
      Refused(s, p);
    }
  }

  lemma ReceiveWait(s: Sys, t: Sys, p: int)
    requires MonInv(s) && ReceiveStep(s, t, p) && Of(s.status, p).m.Wait?
    ensures MonInv(t)
  {
    var c := Of(s.status, p).m.cond;
    DeliverOne(s.status, p);
    if s.server.owner == p && 0 <= c < s.server.numConds {
      var f := s.server.(conds := s.server.conds[c := s.server.conds[c] + [p]]);
      QueuesMove(s.server, s.status, f, p, QCond(c));
      OccupiedMove(s.status, p, p, QCond(c), NOBODY);
      HandOver(f, s.status[p := QCond(c)]);
      ReleaseOthers(f, s.status[p := QCond(c)], p);
    } else {
      Refused(s, p);
    }
  }

  /** A client that waits on a condition is not the one that gets the monitor. */
  lemma ReleaseOthers(s: Server, st: map<int, Status>, p: int)
    requires Queues(s, st) && Of(st, p).QCond?
    ensures !Answers(Release(s).replies, p)
  {
    assert Holds(Queue(s, QUrgent), st, QUrgent) && Holds(Queue(s, QEntry), st, QEntry);
  }

  /** The signaller joins the urgent queue and the first waiter runs at once. */
  lemma SignalWakes(s: Sys, t: Sys, p: int, c: int)
    requires MonInv(s) && ReceiveStep(s, t, p) && Of(s.status, p).m == Signal(c)
    requires s.server.owner == p && 0 <= c < s.server.numConds && |s.server.conds[c]| > 0
    ensures t.server.owner == s.server.conds[c][0] != p
    ensures t.status == s.status[p := QUrgent][t.server.owner := In]
    ensures MonInv(t)
  {
    var w, x := s.server.conds[c][0], QCond(c);
    var f, st := s.server.(urgent := s.server.urgent + [p]), s.status[p := QUrgent];
    SignalDelivers(s, t, p, c, w);
    SignalParks(s, p);
    Grant(f, st, x, t.server);
  }

  /** The signaller joins the urgent queue, and for a moment nobody is inside. */
  lemma SignalParks(s: Sys, p: int)
    requires MonInv(s) && Of(s.status, p).Sent? && s.server.owner == p >= 0
    ensures Queues(s.server.(urgent := s.server.urgent + [p]), s.status[p := QUrgent])
    ensures Occupied(s.status[p := QUrgent], NOBODY)
  {
    QueuesMove(s.server, s.status, s.server.(urgent := s.server.urgent + [p]), p, QUrgent);
    OccupiedMove(s.status, p, p, QUrgent, NOBODY);
  }

  lemma SignalDelivers(s: Sys, t: Sys, p: int, c: int, w: int)
    requires MonInv(s) && ReceiveStep(s, t, p) && Of(s.status, p).m == Signal(c)
    requires s.server.owner == p && 0 <= c < s.server.numConds && |s.server.conds[c]| > 0 && w == s.server.conds[c][0]
    ensures w != p && Of(s.status, w) == QCond(c) && t.status == Deliver(s.status[p := QUrgent], [Reply(w, 0)])
  {
    var x := QCond(c);
    assert IsQueue(x) && Holds(Queue(s.server, x), s.status, x);
    assert w in Queue(s.server, x) && Of(s.status, w) == x;
    AnswersOne(Reply(w, 0), p);
  }

  lemma ReceiveSignal(s: Sys, t: Sys, p: int)
    requires MonInv(s) && ReceiveStep(s, t, p) && Of(s.status, p).m.Signal?
    ensures MonInv(t)
  {
    var c := Of(s.status, p).m.cond;
    DeliverOne(s.status, p);
    if s.server.owner == p && 0 <= c < s.server.numConds {
      if |s.server.conds[c]| > 0 {
        SignalWakes(s, t, p, c);
      } else {
        QueuesMove(s.server, s.status, s.server, p, In);
        OccupiedMove(s.status, p, p, In, p);
      }
    } else {
      Refused(s, p);
    }
  }

  lemma SendInv(s: Sys, t: Sys, p: int, m: Msg)
    requires MonInv(s) && SendStep(s, t, p, m)
    ensures MonInv(t)
  {
    var y := Sent(m, Of(s.status, p) == In);
    QueuesMove(s.server, s.status, s.server, p, y);
    OccupiedMove(s.status, s.server.owner, p, y, s.server.owner);
  }

  lemma ReceiveInv(s: Sys, t: Sys, p: int)
    requires MonInv(s) && ReceiveStep(s, t, p)
    ensures MonInv(t)
  {
    match Of(s.status, p).m
    case Enter => ReceiveEnter(s, t, p);
    case Leave => ReceiveLeave(s, t, p);
    case Wait(_) => ReceiveWait(s, t, p);
    case Signal(_) => ReceiveSignal(s, t, p);
    case Unknown =>
      DeliverOne(s.status, p);
      Refused(s, p);
    case Init(_) =>
  }

  lemma MonInvStep(s: Sys, t: Sys)
    requires MonInv(s) && Next(s, t)
    ensures MonInv(t)
  {
    if p, m :| SendStep(s, t, p, m) {
      SendInv(s, t, p, m);
    } else {
      var p :| ReceiveStep(s, t, p);
      ReceiveInv(s, t, p);
    }
  }

  /** Every state of every run satisfies the monitor's invariant: the owner is
      set exactly when the monitor is locked, an unlocked monitor has empty entry
      and urgent queues, every blocked client sits in exactly one queue once, and
      only the owner is inside. */
  lemma {:induction false} MonInvRun(r: seq<Sys>)
    requires Run(r)
    ensures MonInv(r[|r| - 1])
    decreases |r|
  {
    var n := |r| - 1;
    if n == 0 {
      InitInv(r[0]);
    } else {
      RunPart(r, n);
      MonInvRun(r[..n]);
      assert NextAt(r, n - 1);
      MonInvStep(r[n - 1], r[n]);
    }
  }

  lemma RunPart(r: seq<Sys>, n: nat)
    requires Run(r) && 0 < n <= |r|
    ensures Run(r[..n])
  {
    forall i ensures NextAt(r[..n], i) {
      assert NextAt(r, i);
    }
  }

  lemma InitInv(s: Sys)
    requires InitSys(s)
    ensures MonInv(s)
  {
    forall x | IsQueue(x) ensures Holds(Queue(s.server, x), s.status, x) {}
  }

  /** Mutual exclusion: two clients inside the monitor are the same client. */
  lemma AtMostOneInside(r: seq<Sys>, p: int, q: int)
    requires Run(r) && Inside(Of(r[|r| - 1].status, p)) && Inside(Of(r[|r| - 1].status, q))
    ensures p == q
  {
    MonInvRun(r);
  }

  /** No request is answered twice: a reply goes to the sender or to a client
      parked in a queue, and to nobody twice at once. */
  lemma AnsweredAtMostOnce(s: Sys, p: int)
    requires MonInv(s) && Of(s.status, p).Sent?
    ensures var replies := Serve(s.server, p, Of(s.status, p).m).replies;
      && |replies| <= 2
      && (forall k :: 0 <= k < |replies| ==> replies[k].to == p || IsQueue(Of(s.status, replies[k].to)))
      && (|replies| == 2 ==> replies[0].to != replies[1].to)
  {
    assert Holds(Queue(s.server, QUrgent), s.status, QUrgent) && Holds(Queue(s.server, QEntry), s.status, QEntry);
    if c: int :| Of(s.status, p).m == Signal(c) && 0 <= c < MAX_CONDS {
      assert Holds(Queue(s.server, QCond(c)), s.status, QCond(c));
    }
  }

  // ---- requests and replies over a run

  datatype Event = Asks(p: int, m: Msg) | Serves(p: int)

  ghost predicate Happens(s: Sys, t: Sys, e: Event) {
    match e
    case Asks(p, m) => SendStep(s, t, p, m)
    case Serves(p) => ReceiveStep(s, t, p)
  }

  ghost predicate HappensAt(r: seq<Sys>, es: seq<Event>, i: int)
    requires |r| == |es| + 1 && 0 <= i < |es|
  {
    Happens(r[i], r[i + 1], es[i])
  }

  /** A run with the events that made it. */
  ghost predicate History(r: seq<Sys>, es: seq<Event>) {
    && |r| == |es| + 1 && InitSys(r[0])
    && forall i {:trigger HappensAt(r, es, i)} :: 0 <= i < |es| ==> HappensAt(r, es, i)
  }

  function RepliesTo(replies: seq<Reply>, p: int): (n: nat) {
    if replies == [] then 0 else (if replies[0].to == p then 1 else 0) + RepliesTo(replies[1..], p)
  }

  /** How many replies p gets in one step. */
  function Told(s: Sys, e: Event, p: int): (n: nat) {
    if e.Serves? && Ready(s.server) && Of(s.status, e.p).Sent?
    then RepliesTo(Serve(s.server, e.p, Of(s.status, e.p).m).replies, p) else 0
  }

  /** The requests of p, and the replies to it, in the first k steps. */
  function Requests(es: seq<Event>, k: nat, p: int): (n: nat)
    requires k <= |es|
  {
    if k == 0 then 0 else Requests(es, k - 1, p) + Asked(es[k - 1], p)
  }

  function Replies(r: seq<Sys>, es: seq<Event>, k: nat, p: int): (n: nat)
    requires k <= |es| < |r|
  {
    if k == 0 then 0 else Replies(r, es, k - 1, p) + Told(r[k - 1], es[k - 1], p)
  }

  predicate Blocked(x: Status) {
    x.Sent? || x == QEntry || x == QUrgent || x.QCond?
  }

  function Owed(s: Sys, p: int): (n: nat) {
    if Blocked(Of(s.status, p)) then 1 else 0
  }

  /** Replies to two clients at most, delivered. */
  lemma {:induction false} DeliverTold(st: map<int, Status>, replies: seq<Reply>, p: int)
    requires |replies| <= 2 && (|replies| == 2 ==> replies[0].to != replies[1].to)
    ensures RepliesTo(replies, p) == if Answers(replies, p) then 1 else 0
    ensures !Answers(replies, p) ==> Of(Deliver(st, replies), p) == Of(st, p)
    ensures Answers(replies, p) ==> !Blocked(Of(Deliver(st, replies), p))
    decreases |replies|
  {
    if replies != [] {
      var first, rest := replies[0], replies[1..];
      DeliverTold(st[first.to := Answered(Of(st, first.to), first.code)], rest, p);
      if |rest| == 1 {
        assert rest == [replies[1]];
        AnswersOne(replies[1], p);
      }
    }
  }

  lemma AnswersWhom(replies: seq<Reply>, p: int)
    requires |replies| <= 2 && Answers(replies, p)
    ensures exists k :: 0 <= k < |replies| && replies[k].to == p
  {
    if |replies| == 2 {
      assert replies[1..][1..] == [] && replies[1..][0] == replies[1];
    }
  }

  /** A step of the server answers a blocked client once, and then it is blocked no more. */
  lemma ServedOnce(s: Sys, t: Sys, q: int, p: int)
    requires MonInv(s) && ReceiveStep(s, t, q)
    ensures Owed(s, p) == Told(s, Serves(q), p) + Owed(t, p)
  {
    var m := Of(s.status, q).m;
    var replies := Serve(s.server, q, m).replies;
    AnsweredAtMostOnce(s, q);
    var st := if Answers(replies, q) then s.status else s.status[q := Parked(m)];
    DeliverTold(st, replies, p);
    if Answers(replies, p) {
      AnswersWhom(replies, p);
    }
  }

  lemma EventBalance(s: Sys, t: Sys, e: Event, p: int)
    requires MonInv(s) && Happens(s, t, e)
    ensures MonInv(t) && Owed(s, p) + Asked(e, p) == Told(s, e, p) + Owed(t, p)
    ensures Asked(e, p) == 1 ==> Owed(s, p) == 0
  {
    match e
    case Asks(q, m) =>
      SendInv(s, t, q, m);
    case Serves(q) =>
      ServedOnce(s, t, q, p);
      ReceiveInv(s, t, q);
  }

  function Asked(e: Event, p: int): (n: nat) {
    if e.Asks? && e.p == p then 1 else 0
  }

  lemma BalanceAt(r: seq<Sys>, es: seq<Event>, k: nat, p: int)
    requires History(r, es) && k < |es| && MonInv(r[k])
    ensures MonInv(r[k + 1]) && Owed(r[k], p) + Asked(es[k], p) == Told(r[k], es[k], p) + Owed(r[k + 1], p)
    ensures Asked(es[k], p) == 1 ==> Owed(r[k], p) == 0
  {
    assert HappensAt(r, es, k);
    EventBalance(r[k], r[k + 1], es[k], p);
  }

  /** Every request is answered once, save the one a blocked client still waits for. */
  lemma {:induction false} Balance(r: seq<Sys>, es: seq<Event>, k: nat, p: int)
    requires History(r, es) && k <= |es|
    ensures MonInv(r[k]) && Requests(es, k, p) == Replies(r, es, k, p) + Owed(r[k], p)
    decreases k
  {
    if k == 0 {
      InitInv(r[0]);
    } else {
      Balance(r, es, k - 1, p);
      BalanceAt(r, es, k - 1, p);
    }
  }

  lemma {:induction false} NoRequests(es: seq<Event>, i: nat, j: nat, p: int)
    requires i <= j <= |es| && forall k :: i <= k < j ==> Asked(es[k], p) == 0
    ensures Requests(es, j, p) == Requests(es, i, p)
    decreases j
  {
    if i < j {
      NoRequests(es, i, j - 1, p);
    }
  }

  /** When a client makes a request, all earlier ones have been answered. */
  lemma AllAnswered(r: seq<Sys>, es: seq<Event>, i: nat, p: int)
    requires History(r, es) && i < |es| && Asked(es[i], p) == 1
    ensures Requests(es, i, p) == Replies(r, es, i, p)
  {
    Balance(r, es, i, p);
    BalanceAt(r, es, i, p);
  }

  /** Between two successive requests of a client it gets exactly one reply. */
  lemma OneReplyPerRequest(r: seq<Sys>, es: seq<Event>, i: nat, j: nat, p: int)
    requires History(r, es) && i < j < |es|
    requires Asked(es[i], p) == 1 && Asked(es[j], p) == 1 && forall k :: i < k < j ==> Asked(es[k], p) == 0
    ensures Replies(r, es, j, p) == Replies(r, es, i, p) + 1
  {
    AllAnswered(r, es, i, p);
    AllAnswered(r, es, j, p);
    NoRequests(es, i + 1, j, p);
  }

  // ---- the order of service

  /** What one step does to a queue: nothing, one more at the end, or the first
      one goes and gets the monitor. */
  predicate InOrder(q: seq<int>, u: seq<int>, t: Sys) {
    || u == q
    || (|u| == |q| + 1 && u[..|q|] == q)
    || (q != [] && u == q[1..] && t.server.owner == q[0] && Of(t.status, q[0]) == In)
  }

  lemma ReleaseOrder(s: Server, st: map<int, Status>, x: Status)
    requires Queues(s, st) && Occupied(st, NOBODY) && IsQueue(x)
    ensures InOrder(Queue(s, x), Queue(Release(s).server, x), Sys(Release(s).server, Deliver(st, Release(s).replies)))
    ensures x == QEntry && s.urgent != [] ==> Queue(Release(s).server, x) == s.entry
  {
    assert Holds(Queue(s, QUrgent), st, QUrgent) && Holds(Queue(s, QEntry), st, QEntry);
    if |s.urgent| > 0 {
      assert s.urgent[0] in Queue(s, QUrgent);
      DeliverOne(st, s.urgent[0]);
    } else if |s.entry| > 0 {
      assert s.entry[0] in Queue(s, QEntry);
      DeliverOne(st, s.entry[0]);
    }
  }

  /** The queues as an operation leaves them for Release, and the reply before it. */
  lemma LeaveOrder(s: Sys, t: Sys, p: int, x: Status)
    requires MonInv(s) && ReceiveStep(s, t, p) && Of(s.status, p) == Sent(Leave, true) && IsQueue(x)
    ensures InOrder(Queue(s.server, x), Queue(t.server, x), t)
    ensures x == QEntry && s.server.urgent != [] ==> t.server.entry == s.server.entry
  {
    assert Inside(Of(s.status, p));
    DeliverOne(s.status, p);
    assert ([Reply(p, 0)] + Release(s.server).replies)[1..] == Release(s.server).replies;
    QueuesMove(s.server, s.status, s.server, p, Out);
    OccupiedMove(s.status, p, p, Out, NOBODY);
    ReleaseOrder(s.server, s.status[p := Out], x);
  }

  lemma WaitOrder(s: Sys, t: Sys, p: int, c: int, x: Status)
    requires MonInv(s) && ReceiveStep(s, t, p) && Of(s.status, p) == Sent(Wait(c), true) && IsQueue(x)
    requires 0 <= c < s.server.numConds
    ensures InOrder(Queue(s.server, x), Queue(t.server, x), t)
    ensures x == QEntry && s.server.urgent != [] ==> t.server.entry == s.server.entry
  {
    assert Inside(Of(s.status, p));
    var f := s.server.(conds := s.server.conds[c := s.server.conds[c] + [p]]);
    var st := s.status[p := QCond(c)];
    QueuesMove(s.server, s.status, f, p, QCond(c));
    OccupiedMove(s.status, p, p, QCond(c), NOBODY);
    ReleaseOthers(f, st, p);
    ReleaseOrder(f, st, x);
  }

  lemma EnterOrder(s: Sys, t: Sys, p: int, x: Status)
    requires MonInv(s) && ReceiveStep(s, t, p) && Of(s.status, p).m.Enter? && IsQueue(x)
    ensures Queue(t.server, x) == Queue(s.server, x) || (x == QEntry && t.server.entry == s.server.entry + [p])
  {}

  lemma SignalOrder(s: Sys, t: Sys, p: int, c: int, x: Status)
    requires MonInv(s) && ReceiveStep(s, t, p) && Of(s.status, p) == Sent(Signal(c), true) && IsQueue(x)
    requires 0 <= c < s.server.numConds
    ensures InOrder(Queue(s.server, x), Queue(t.server, x), t)
    ensures x == QEntry ==> t.server.entry == s.server.entry
  {
    assert Inside(Of(s.status, p));
    if |s.server.conds[c]| > 0 {
      SignalWakes(s, t, p, c);
    }
  }

  lemma ReceiveOrder(s: Sys, t: Sys, p: int, x: Status)
    requires MonInv(s) && ReceiveStep(s, t, p) && IsQueue(x)
    ensures InOrder(Queue(s.server, x), Queue(t.server, x), t)
    ensures x == QEntry && s.server.urgent != [] ==> |s.server.entry| <= |t.server.entry|
  {
    var st := Of(s.status, p);
    assert Inside(st) <==> p == s.server.owner && p != NOBODY;
    match st.m
    case Enter => EnterOrder(s, t, p, x);
    case Leave =>
      if st.inside {
        LeaveOrder(s, t, p, x);
      }
    case Wait(c) =>
      if st.inside && 0 <= c < s.server.numConds {
        WaitOrder(s, t, p, c, x);
      }
    case Signal(c) =>
      if st.inside && 0 <= c < s.server.numConds {
        SignalOrder(s, t, p, c, x);
      }
    case _ =>
  }

  lemma OrderAt(r: seq<Sys>, k: nat, x: Status)
    requires Run(r) && k + 1 < |r| && IsQueue(x)
    ensures MonInv(r[k]) && MonInv(r[k + 1]) && InOrder(Queue(r[k].server, x), Queue(r[k + 1].server, x), r[k + 1])
    ensures x == QEntry && r[k].server.urgent != [] ==> |r[k].server.entry| <= |r[k + 1].server.entry|
  {
    RunPart(r, k + 1);
    MonInvRun(r[..k + 1]);
    assert NextAt(r, k);
    var s, t := r[k], r[k + 1];
    MonInvStep(s, t);
    if p, m :| SendStep(s, t, p, m) {
    } else {
      var p :| ReceiveStep(s, t, p);
      ReceiveOrder(s, t, p, x);
    }
  }

  /** In every run a process that waits to enter gets the monitor only when no
      signaller is waiting to go on. */
  lemma UrgentFirst(r: seq<Sys>, k: nat, p: int)
    requires Run(r) && k + 1 < |r| && Of(r[k].status, p) == QEntry && Of(r[k + 1].status, p) != QEntry
    ensures r[k].server.urgent == [] && r[k].server.entry != [] && r[k].server.entry[0] == p
    ensures r[k + 1].server.owner == p && Of(r[k + 1].status, p) == In
  {
    OrderAt(r, k, QEntry);
    assert Holds(Queue(r[k].server, QEntry), r[k].status, QEntry);
    assert Holds(Queue(r[k + 1].server, QEntry), r[k + 1].status, QEntry);
    Leaver(r[k].server.entry, r[k + 1].server.entry, r[k + 1], p);
  }

  /** Who leaves a queue was the first in it, and has the monitor. */
  lemma Leaver(q: seq<int>, u: seq<int>, t: Sys, p: int)
    requires InOrder(q, u, t) && p in q && p !in u
    ensures |u| < |q| && q[0] == p && t.server.owner == p && Of(t.status, p) == In
  {}

  /** p waits in q before o does. */
  predicate Before(q: seq<int>, p: int, o: int) {
    exists i, j :: 0 <= i < j < |q| && q[i] == p && q[j] == o
  }

  lemma BeforeStep(q: seq<int>, u: seq<int>, t: Sys, p: int, o: int)
    requires InOrder(q, u, t) && Before(q, p, o) && (q == [] || q[0] != p || u != q[1..])
    ensures Before(u, p, o)
  {
    var i, j :| 0 <= i < j < |q| && q[i] == p && q[j] == o;
    if q != [] && u == q[1..] {
      assert u[i - 1] == p && u[j - 1] == o;
    } else if |u| == |q| + 1 && u[..|q|] == q {
      assert u[..|q|][i] == u[i] && u[..|q|][j] == u[j];
    }
  }

  lemma BeforeAt(r: seq<Sys>, k: nat, x: Status, p: int, o: int)
    requires Run(r) && k + 1 < |r| && IsQueue(x) && Ready(r[k].server) && Before(Queue(r[k].server, x), p, o)
    requires Of(r[k + 1].status, p) == x
    ensures Ready(r[k + 1].server) && Before(Queue(r[k + 1].server, x), p, o)
  {
    OrderAt(r, k, x);
    var q, u := Queue(r[k].server, x), Queue(r[k + 1].server, x);
    assert Holds(q, r[k].status, x) && Holds(u, r[k + 1].status, x);
    if q != [] {
      DistinctTail(q);
    }
    BeforeStep(q, u, r[k + 1], p, o);
  }

  /** In every run each queue is served first come, first served: as long as p
      waits, whoever came after it waits behind it. */
  lemma {:induction false} FirstComeFirstServed(r: seq<Sys>, i: nat, k: nat, x: Status, p: int, o: int)
    requires Run(r) && i <= k < |r| && IsQueue(x) && Ready(r[i].server) && Before(Queue(r[i].server, x), p, o)
    requires forall m :: i <= m <= k ==> Of(r[m].status, p) == x
    ensures Ready(r[k].server) && Before(Queue(r[k].server, x), p, o) && Of(r[k].status, o) == x
    decreases k
  {
    if i < k {
      FirstComeFirstServed(r, i, k - 1, x, p, o);
      BeforeAt(r, k - 1, x, p, o);
    }
    RunPart(r, k + 1);
    MonInvRun(r[..k + 1]);
    assert Holds(Queue(r[k].server, x), r[k].status, x);
  }
}
