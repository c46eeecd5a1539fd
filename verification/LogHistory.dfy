/** What the file system sees of the log: which value of a block counts, over
    whole runs, and the code of log.c as steps of those runs. */
module LogHistory {
  import opened Params
  import opened Journal
  import opened Log
  import opened GroupCommit

  /** What a step of a run does. */
  datatype Event = Begins(p: int) | Logs(p: int, b: int, v: Block) | Ends(p: int) | Commits | Recovers | Fails

  ghost predicate Happens(s: Sys, t: Sys, e: Event, start: int, bound: nat) {
    match e
    case Begins(p) => Begin(s, t, p)
    case Logs(p, b, v) => LogStep(s, t, p, b, v, start, bound)
    case Ends(p) => End(s, t, p)
    case Commits => CommitStep(s, t, start)
    case Recovers => RecoverStep(s, t, start)
    case Fails => Crash(s, t)
  }

  ghost predicate HappensAt(r: seq<Sys>, es: seq<Event>, start: int, bound: nat, i: int)
    requires |r| == |es| + 1 && 0 <= i < |es|
  {
    Happens(r[i], r[i + 1], es[i], start, bound)
  }

  /** A run with the events that made it. */
  ghost predicate History(r: seq<Sys>, es: seq<Event>, start: int, bound: nat) {
    && |r| == |es| + 1 && Init(r[0], start)
    && forall i {:trigger HappensAt(r, es, start, bound, i)} :: 0 <= i < |es| ==> HappensAt(r, es, start, bound, i)
  }

  lemma HistoryIsRun(r: seq<Sys>, es: seq<Event>, start: int, bound: nat)
    requires History(r, es, start, bound)
    ensures Run(r, start, bound)
  {
    forall i | 0 <= i < |r| - 1 ensures Next(r[i], r[i + 1], start, bound) {
      assert HappensAt(r, es, start, bound, i);
    }
  }

  lemma RunUpTo(r: seq<Sys>, start: int, bound: nat, k: nat)
    requires Run(r, start, bound) && k < |r|
    ensures Run(r[..k + 1], start, bound) && Inv(r[k], start)
  {
    var q := r[..k + 1];
    forall i | 0 <= i < |q| - 1 ensures Next(q[i], q[i + 1], start, bound) {
      assert Next(r[i], r[i + 1], start, bound);
    }
    NoPartialOperation(q, start, bound);
  }

  // ---- what one step does to the contents

  /** Only block b may be seen differently. */
  ghost predicate SameBut(s: Sys, t: Sys, start: int, b: int) {
    && |t.disk| == |s.disk|
    && forall c {:trigger Logical(t, c)} :: Home(|s.disk|, start, c) && c != b ==> Logical(t, c) == Logical(s, c)
  }

  /** log_write makes the new contents of its block the current ones, whether or
      not the block was in the log before, and touches no other block. */
  lemma LogSees(s: Sys, t: Sys, p: int, b: int, v: Block, start: int, bound: nat)
    requires LogStep(s, t, p, b, v, start, bound)
    ensures SameBut(s, t, start, b) && Logical(t, b) == if t.panicked then Logical(s, b) else v
  {}

  lemma CommitSees(s: Sys, t: Sys, start: int, b: int)
    requires Inv(s, start) && CommitStep(s, t, start) && Home(|s.disk|, start, b)
    ensures |t.disk| == |s.disk| && Logical(t, b) == Logical(s, b)
  {
    var data := Gather(s.lh, s.cache);
    CommittingLogical(s, start, b);
    if t.phase.Committing? {
      CommitStepDisk(s, t, start);
      CommittingLogical(t, start, b);
    } else {
      assert GroupCommit.Commits(s, start)[..s.phase.done] == GroupCommit.Commits(s, start);
      if s.lh != [] {
        CommitComplete(s.phase.was, start, s.lh, data);
        assert Committed(t.disk, start, b) == t.disk[b];
      }
    }
  }

  /** Beginning, ending and committing show the file system nothing. */
  lemma StepSees(s: Sys, t: Sys, e: Event, start: int, bound: nat, b: int)
    requires Inv(s, start) && Happens(s, t, e, start, bound) && !e.Fails? && !e.Recovers? && Home(|s.disk|, start, b)
    ensures |t.disk| == |s.disk| && (!t.panicked ==> !s.panicked)
    ensures !t.panicked ==> Logical(t, b) == if e.Logs? && e.b == b then e.v else Logical(s, b)
  {
    match e
    case Logs(p, c, v) => LogSees(s, t, p, c, v, start, bound);
    case Commits => CommitSees(s, t, start, b);
    case _ =>
  }

  // ---- over runs

  /** The value that the events i .. k - 1 leave in block b, which held was. */
  function LastLogged(es: seq<Event>, i: nat, k: nat, b: int, was: Block): (v: Block)
    requires i <= k <= |es|
    decreases k
  {
    if k == i then was
    else if es[k - 1].Logs? && es[k - 1].b == b then es[k - 1].v
    else LastLogged(es, i, k - 1, b, was)
  }

  /** The machine stays up. */
  predicate Up(es: seq<Event>, i: nat, k: nat)
    requires i <= k <= |es|
  {
    forall m :: i <= m < k ==> !es[m].Fails? && !es[m].Recovers?
  }

  /** In every run, while the machine stays up a block holds the last value that
      any operation logged for it, and what it held at first if there is none. */
  lemma {:induction false} LastWriteWins(r: seq<Sys>, es: seq<Event>, start: int, bound: nat, i: nat, k: nat, b: int)
    requires History(r, es, start, bound) && i <= k <= |es| && Up(es, i, k) && !r[k].panicked
    requires Home(|r[i].disk|, start, b)
    ensures !r[i].panicked && |r[k].disk| == |r[i].disk|
    ensures Logical(r[k], b) == LastLogged(es, i, k, b, Logical(r[i], b))
    decreases k
  {
    if i < k {
      SizeKept(r, es, start, bound, i, k - 1);
      SeesAt(r, es, start, bound, k - 1, b);
      LastWriteWins(r, es, start, bound, i, k - 1, b);
    }
  }

  lemma SeesAt(r: seq<Sys>, es: seq<Event>, start: int, bound: nat, k: nat, b: int)
    requires History(r, es, start, bound) && k < |es| && !es[k].Fails? && !es[k].Recovers?
    requires Home(|r[k].disk|, start, b) && !r[k + 1].panicked
    ensures !r[k].panicked && |r[k + 1].disk| == |r[k].disk|
    ensures Logical(r[k + 1], b) == if es[k].Logs? && es[k].b == b then es[k].v else Logical(r[k], b)
  {
    HistoryIsRun(r, es, start, bound);
    RunUpTo(r, start, bound, k);
    assert HappensAt(r, es, start, bound, k);
    StepSees(r[k], r[k + 1], es[k], start, bound, b);
  }

  lemma {:induction false} SizeKept(r: seq<Sys>, es: seq<Event>, start: int, bound: nat, i: nat, k: nat)
    requires History(r, es, start, bound) && i <= k <= |es|
    ensures |r[k].disk| == |r[i].disk|
    decreases k
  {
    if i < k {
      SizeKept(r, es, start, bound, i, k - 1);
      assert HappensAt(r, es, start, bound, k - 1);
    }
  }

  /** What survives a crash at any moment, block by block: there is an earlier
      moment with no operation outstanding such that the disk recovers, in every
      home block, to the last value logged before it. */
  lemma DurableValues(r: seq<Sys>, es: seq<Event>, start: int, bound: nat) returns (j: nat)
    requires History(r, es, start, bound)
    ensures j < |r| && Survives(r, start, j) && GoodDisk(r[|r| - 1].disk, start) && |r[|r| - 1].disk| == |r[j].disk|
    ensures forall i, b :: 0 <= i <= j && Up(es, i, j) && !r[j].panicked && Home(|r[i].disk|, start, b) ==>
      |r[i].disk| == |r[j].disk| &&
      Committed(r[|r| - 1].disk, start, b) == LastLogged(es, i, j, b, Logical(r[i], b))
  {
    HistoryIsRun(r, es, start, bound);
    NoPartialOperation(r, start, bound);
    j :| Survives(r, start, j);
    forall i, b | 0 <= i <= j && Up(es, i, j) && !r[j].panicked && Home(|r[i].disk|, start, b)
      ensures |r[i].disk| == |r[j].disk|
      ensures Committed(r[|r| - 1].disk, start, b) == LastLogged(es, i, j, b, Logical(r[i], b))
    {
      LastWriteWins(r, es, start, bound, i, j, b);
    }
  }

  // ---- commits and recoveries come to an end

  function Last(r: seq<Sys>): (s: Sys)
    requires r != []
  {
    r[|r| - 1]
  }

  lemma Append(r: seq<Sys>, t: Sys, start: int, bound: nat) returns (r2: seq<Sys>)
    requires Run(r, start, bound) && Next(Last(r), t, start, bound)
    ensures Run(r2, start, bound) && r <= r2 && Last(r2) == t
  {
    r2 := r + [t];
    forall i | 0 <= i < |r2| - 1 ensures Next(r2[i], r2[i + 1], start, bound) {
      if i < |r| - 1 {
        assert Next(r[i], r[i + 1], start, bound);
      }
    }
  }

  /** The next state of a commit. */
  ghost function CommitsOn(s: Sys, start: int): (t: Sys)
    requires Inv(s, start) && s.phase.Committing?
    ensures CommitStep(s, t, start)
  {
    var ws := GroupCommit.Commits(s, start);
    if s.phase.done < |ws| then
      var w := ws[s.phase.done];
      s.(disk := s.disk[w.dst := w.data], phase := Committing(s.phase.was, s.phase.done + 1))
    else s.(phase := Running, lh := [], cache := map[])
  }

  ghost function RecoversOn(s: Sys, start: int): (t: Sys)
    requires Inv(s, start) && s.phase.Recovering?
    ensures RecoverStep(s, t, start)
  {
    RecoverWritesInRange(s.phase.was, start);
    var ws := RecoverWrites(s.phase.was, start);
    if s.phase.done < |ws| then
      var w := ws[s.phase.done];
      s.(disk := s.disk[w.dst := w.data], phase := Recovering(s.phase.was, s.phase.done + 1))
    else s.(phase := Running)
  }

  lemma CommitsSame(s: Sys, t: Sys, start: int)
    requires Inv(s, start) && CommitStep(s, t, start)
    ensures SameLogical(s, t, start)
  {
    forall b: int | Home(|s.disk|, start, b) ensures Logical(s, b) == Logical(t, b) {
      CommitSees(s, t, start, b);
    }
    CommitSize(s, t, start);
  }

  lemma CommitSize(s: Sys, t: Sys, start: int)
    requires CommitStep(s, t, start)
    ensures |t.disk| == |s.disk|
  {}

  /** A commit under way can finish: the log is empty, and every block holds what it held. */
  lemma {:induction false} CanCommit(r: seq<Sys>, start: int, bound: nat) returns (r2: seq<Sys>)
    requires Run(r, start, bound) && Inv(Last(r), start) && Last(r).phase.Committing?
    ensures Run(r2, start, bound) && r <= r2 && Last(r2).phase.Running? && Last(r2).lh == []
    ensures SameLogical(Last(r), Last(r2), start)
    decreases |GroupCommit.Commits(Last(r), start)| - Last(r).phase.done
  {
    var s := Last(r);
    var t := CommitsOn(s, start);
    CommitsSame(s, t, start);
    var r1 := Append(r, t, start, bound);
    if t.phase.Running? {
      r2 := r1;
    } else {
      CommitStepDisk(s, t, start);
      r2 := CanCommit(r1, start, bound);
    }
  }

  /** A recovery can finish, and then the file system sees what the disk had committed. */
  lemma {:induction false} CanRecover(r: seq<Sys>, start: int, bound: nat) returns (r2: seq<Sys>)
    requires Run(r, start, bound) && Inv(Last(r), start) && Last(r).phase.Recovering?
    ensures Run(r2, start, bound) && r <= r2 && Last(r2).phase.Running?
    ensures RecoversTo(Last(r).disk, Last(r2), start)
    decreases |RecoverWrites(Last(r).phase.was, start)| - Last(r).phase.done
  {
    var s := Last(r);
    var t := RecoversOn(s, start);
    var r1 := Append(r, t, start, bound);
    if t.phase.Running? {
      RecoverReturn(s, t, start);
      r2 := r1;
    } else {
      RecoverStepDisk(s, t, start);
      r2 := CanRecover(r1, start, bound);
    }
  }

  // ---- the code takes these steps

  /** The state of the code outside commits, with the operations under way. */
  ghost function View(l: LogState, ops: map<int, set<int>>, panicked: bool): (s: Sys)
    reads l, l.block
    requires l.n <= l.block.Length
  {
    Sys(l.dev.blocks, Running, l.block[..l.n], l.cache, ops, panicked)
  }

  /** log_write is a LogStep. */
  method CodeLogs(l: LogState, b: int, data: Block, ghost p: int, ghost ops: map<int, set<int>>, ghost bound: nat)
    returns (panic: bool)
    requires l.Valid() && |ops| == l.outstanding && p in ops && |ops[p] + {b}| <= bound
    requires Home(|l.dev.blocks|, l.start, b)
    modifies l, l.block
    ensures l.Valid() && l.outstanding == |ops|
    ensures LogStep(old(View(l, ops, false)), View(l, if panic then ops else ops[p := ops[p] + {b}], panic),
                    p, b, data, l.start, bound)
  {
    assert ops != map[];
    panic := l.LogWrite(b, data);
  }

  /** begin_op that goes through is a Begin, and it goes through whenever a Begin is possible. */
  method CodeBegins(l: LogState, ghost p: int, ghost ops: map<int, set<int>>) returns (admitted: bool)
    requires l.Valid() && |ops| == l.outstanding && p !in ops && !l.committing
    modifies l
    ensures l.Valid()
    ensures admitted ==> Begin(old(View(l, ops, false)), View(l, ops[p := {}], false), p)
    ensures !admitted ==> View(l, ops, false) == old(View(l, ops, false))
    ensures !admitted ==> forall t :: !Begin(View(l, ops, false), t, p)
  {
    admitted := l.BeginOp();
  }

  /** end_op is an End: the last operation out starts the commit. */
  method CodeEnds(l: LogState, ghost p: int, ghost ops: map<int, set<int>>) returns (doCommit: bool)
    requires l.Valid() && |ops| == l.outstanding && p in ops && !l.committing
    modifies l
    ensures l.Valid() && doCommit == l.committing && doCommit == (ops - {p} == map[])
    ensures var t := View(l, ops - {p}, false);
      End(old(View(l, ops, false)), if doCommit then t.(phase := Committing(t.disk, 0)) else t, p)
  {
    var panic;
    SmallerMap(ops, p);
    panic, doCommit := l.EndOp();
  }

  lemma SmallerMap(ops: map<int, set<int>>, p: int)
    requires p in ops
    ensures |ops| >= 1 && |ops - {p}| == |ops| - 1 && (ops - {p} == map[] <==> |ops| == 1)
  {
    assert ops == (ops - {p})[p := ops[p]];
  }
}
