/** Whole runs of the logging system: any interleaving of begin_op, log_write,
    end_op, the single disk writes of commit and recovery, and crashes. */
module GroupCommit {
  import opened Params
  import opened Journal
  import opened Log

  /** was is the disk when the commit or the recovery began, done the number of
      its writes that have reached the disk. */
  datatype Phase =
    | Running
    | Committing(was: Disk, done: nat)
    | Recovering(was: Disk, done: nat)

  /** ops maps each operation between begin_op and end_op to the distinct
      blocks it has logged; log.outstanding is |ops|, and log.committing holds
      in phase Committing. */
  datatype Sys = Sys(
    disk: Disk, phase: Phase,
    lh: seq<int>, cache: map<int, Block>,
    ops: map<int, set<int>>, panicked: bool)

  ghost predicate Init(s: Sys, start: int) {
    && GoodDisk(s.disk, start) && Head(s.disk, start) == []
    && s == Sys(s.disk, Running, [], map[], map[], false)
  }

  // ---- steps

  ghost predicate Begin(s: Sys, t: Sys, p: int) {
    && p !in s.ops && s.phase.Running? && !s.panicked
    && MayBegin(false, |s.lh|, |s.ops|)
    && t == s.(ops := s.ops[p := {}])
  }

  /** Operation p modifies home block b and calls log_write.  Operations keep to
      at most bound distinct blocks each. */
  ghost predicate LogStep(s: Sys, t: Sys, p: int, b: int, v: Block, start: int, bound: nat) {
    && p in s.ops && !s.panicked
    && Home(|s.disk|, start, b)
    && |s.ops[p] + {b}| <= bound
    && if |s.lh| >= LOGBLOCKS then t == s.(panicked := true)
       else t == s.(lh := Absorb(s.lh, b), cache := s.cache[b := v], ops := s.ops[p := s.ops[p] + {b}])
  }

  ghost predicate End(s: Sys, t: Sys, p: int) {
    && p in s.ops && !s.panicked
    && if s.phase.Committing? then t == s.(panicked := true)
       else if s.ops - {p} == map[] then t == s.(ops := map[], phase := Committing(s.disk, 0))
       else t == s.(ops := s.ops - {p})
  }

  /** The writes a commit in phase Committing consists of. */
  ghost function Commits(s: Sys, start: int): (ws: seq<Write>)
    requires s.phase.Committing? && HasHead(s.phase.was, start)
    requires |s.lh| <= LOGBLOCKS && Blocks(s.lh) <= s.cache.Keys
  {
    CommitWrites(s.phase.was, start, s.lh, Gather(s.lh, s.cache))
  }

  /** One bwrite of commit(), or its return once all are done. */
  ghost predicate CommitStep(s: Sys, t: Sys, start: int) {
    && s.phase.Committing? && HasHead(s.phase.was, start)
    && |s.lh| <= LOGBLOCKS && Blocks(s.lh) <= s.cache.Keys
    && var ws := Commits(s, start);
       if s.phase.done < |ws| then
         var w := ws[s.phase.done];
         && 0 <= w.dst < |s.disk|
         && t == s.(disk := s.disk[w.dst := w.data], phase := Committing(s.phase.was, s.phase.done + 1))
       else t == s.(phase := Running, lh := [], cache := map[])
  }

  ghost predicate RecoverStep(s: Sys, t: Sys, start: int) {
    && s.phase.Recovering? && GoodDisk(s.phase.was, start)
    && var ws := RecoverWrites(s.phase.was, start);
       if s.phase.done < |ws| then
         var w := ws[s.phase.done];
         && 0 <= w.dst < |s.disk|
         && t == s.(disk := s.disk[w.dst := w.data], phase := Recovering(s.phase.was, s.phase.done + 1))
       else t == s.(phase := Running)
  }

  /** Power fails at any moment; the disk is all that is left. */
  ghost predicate Crash(s: Sys, t: Sys) {
    t == Sys(s.disk, Recovering(s.disk, 0), [], map[], map[], false)
  }

  ghost predicate Next(s: Sys, t: Sys, start: int, bound: nat) {
    || (exists p :: Begin(s, t, p))
    || (exists p, b, v :: LogStep(s, t, p, b, v, start, bound))
    || (exists p :: End(s, t, p))
    || CommitStep(s, t, start)
    || RecoverStep(s, t, start)
    || Crash(s, t)
  }

  ghost predicate Run(r: seq<Sys>, start: int, bound: nat) {
    && r != [] && Init(r[0], start)
    && forall i :: 0 <= i < |r| - 1 ==> Next(r[i], r[i + 1], start, bound)
  }

  // ---- the invariant

  ghost predicate InvPhase(s: Sys, start: int)
    requires |s.lh| <= LOGBLOCKS && Blocks(s.lh) == s.cache.Keys && GoodDisk(s.disk, start)
  {
    match s.phase
    case Running => Head(s.disk, start) == []
    case Committing(was, done) =>
      && s.ops == map[]
      && |was| == |s.disk| && CommitReady(was, start, s.lh, Gather(s.lh, s.cache))
      && done <= |Commits(s, start)| && InRange(was, Commits(s, start))
      && s.disk == Apply(was, Commits(s, start)[..done])
    case Recovering(was, done) =>
      && s.ops == map[] && s.lh == []
      && |was| == |s.disk| && GoodDisk(was, start)
      && done <= |RecoverWrites(was, start)|
      && s.disk == Apply(was, RecoverWrites(was, start)[..done])
  }

  ghost predicate Inv(s: Sys, start: int) {
    && GoodDisk(s.disk, start)
    && GoodList(|s.disk|, start, s.lh)
    && s.cache.Keys == Blocks(s.lh)
    && InvPhase(s, start)
  }

  /** The contents of home block b as the file system sees it. */
  function Logical(s: Sys, b: int): (v: Block)
    requires 0 <= b < |s.disk|
  {
    if b in s.cache then s.cache[b] else s.disk[b]
  }

  /** Recovering disk d yields exactly the logical contents of state s. */
  ghost predicate RecoversTo(d: Disk, s: Sys, start: int) {
    && GoodDisk(d, start) && |d| == |s.disk|
    && forall b: int :: Home(|d|, start, b) ==> Committed(d, start, b) == Logical(s, b)
  }

  ghost predicate SameLogical(s: Sys, t: Sys, start: int) {
    && |s.disk| == |t.disk|
    && forall b: int :: Home(|s.disk|, start, b) ==> Logical(s, b) == Logical(t, b)
  }

  /** A moment at which no operation is outstanding. */
  predicate Quiescent(s: Sys) {
    s.ops == map[] && !s.phase.Recovering?
  }

  /** A quiescent moment with no commit under way either. */
  predicate Settled(s: Sys) {
    s.ops == map[] && s.phase.Running?
  }

  // ---- single steps

  lemma InvInit(s: Sys, start: int)
    requires Init(s, start)
    ensures Inv(s, start) && RecoversTo(s.disk, s, start)
  {}

  lemma AbsorbGood(size: nat, start: int, lh: seq<int>, b: int)
    requires GoodList(size, start, lh) && Home(size, start, b) && |lh| < LOGBLOCKS
    ensures GoodList(size, start, Absorb(lh, b)) && Blocks(Absorb(lh, b)) == Blocks(lh) + {b}
  {}

  lemma InvWrite(s: Sys, t: Sys, p: int, b: int, v: Block, start: int, bound: nat)
    requires Inv(s, start) && LogStep(s, t, p, b, v, start, bound)
    ensures Inv(t, start) && t.disk == s.disk
  {
    assert s.phase.Running?;
    if |s.lh| < LOGBLOCKS {
      AbsorbGood(|s.disk|, start, s.lh, b);
    }
  }

  lemma InvEnd(s: Sys, t: Sys, p: int, start: int)
    requires Inv(s, start) && End(s, t, p)
    ensures Inv(t, start) && t.disk == s.disk && !t.panicked
  {
    if t.phase.Committing? {
      CommitWritesInRange(s.disk, start, t.lh, Gather(t.lh, t.cache));
      assert Commits(t, start)[..0] == [];
    }
  }

  lemma InvCrash(s: Sys, t: Sys, start: int)
    requires Inv(s, start) && Crash(s, t)
    ensures Inv(t, start) && t.disk == s.disk
  {
    assert RecoverWrites(s.disk, start)[..0] == [];
  }

  /** Commit leaves a home block it does not name alone. */
  lemma CommitKeeps(d: Disk, start: int, lh: seq<int>, data: seq<Block>, k: nat, b: int)
    requires CommitReady(d, start, lh, data) && k <= |CommitWrites(d, start, lh, data)|
    requires Home(|d|, start, b) && b !in lh
    ensures InRange(d, CommitWrites(d, start, lh, data)[..k])
    ensures Apply(d, CommitWrites(d, start, lh, data)[..k])[b] == d[b]
  {
    CommitWritesInRange(d, start, lh, data);
    if lh != [] {
      CommitDsts(d, start, lh, data);
    }
    ApplyMiss(d, CommitWrites(d, start, lh, data)[..k], b);
  }

  /** The logical contents during a commit, from the disk it began with. */
  lemma CommittingLogical(s: Sys, start: int, b: int)
    requires Inv(s, start) && s.phase.Committing? && Home(|s.disk|, start, b)
    ensures Logical(s, b) == if b in s.lh then Gather(s.lh, s.cache)[IndexOf(s.lh, b)] else s.phase.was[b]
  {
    if b !in s.lh {
      CommitKeeps(s.phase.was, start, s.lh, Gather(s.lh, s.cache), s.phase.done, b);
    }
  }

  lemma CommitStepDisk(s: Sys, t: Sys, start: int)
    requires Inv(s, start) && CommitStep(s, t, start) && t.phase.Committing?
    ensures Inv(t, start) && t.lh == s.lh && t.cache == s.cache && t.phase.done == s.phase.done + 1
  {
    CommitPrefix(s.phase.was, start, s.lh, Gather(s.lh, s.cache), s.phase.done + 1);
    ApplyNext(s.phase.was, Commits(s, start), s.phase.done);
  }

  /** A commit's write up to the last log block changes nothing that recovery sees. */
  lemma CommitStepOld(s: Sys, t: Sys, start: int)
    requires Inv(s, start) && Inv(t, start) && s.phase.Committing?
    requires t.phase == Committing(s.phase.was, s.phase.done + 1) && t.lh == s.lh && t.cache == s.cache
    requires t.phase.done <= |s.lh|
    ensures SameCommitted(t.disk, s.disk, start)
  {
    CommitPrefix(s.phase.was, start, s.lh, Gather(s.lh, s.cache), s.phase.done);
    CommitPrefix(s.phase.was, start, s.lh, Gather(s.lh, s.cache), t.phase.done);
    SameOld(t.disk, s.disk, s.phase.was, start);
  }

  lemma SameOld(e: Disk, f: Disk, d: Disk, start: int)
    requires AllOld(e, d, start) && AllOld(f, d, start)
    ensures SameCommitted(e, f, start)
  {}

  /** Once the header is written, the disk recovers to the logical contents. */
  lemma CommitStepNew(t: Sys, start: int)
    requires Inv(t, start) && t.phase.Committing? && t.phase.done > |t.lh|
    ensures RecoversTo(t.disk, t, start)
  {
    CommitPrefix(t.phase.was, start, t.lh, Gather(t.lh, t.cache), t.phase.done);
    forall b: int | Home(|t.disk|, start, b) ensures Committed(t.disk, start, b) == Logical(t, b) {
      CommittingLogical(t, start, b);
    }
  }

  lemma CommitReturn(s: Sys, t: Sys, start: int)
    requires Inv(s, start) && CommitStep(s, t, start) && t.phase.Running?
    ensures Inv(t, start) && RecoversTo(t.disk, t, start)
  {
    var was, lh, data := s.phase.was, s.lh, Gather(s.lh, s.cache);
    assert Commits(s, start)[..s.phase.done] == Commits(s, start);
    if lh != [] {
      CommitComplete(was, start, lh, data);
    }
  }

  lemma RecoverStepDisk(s: Sys, t: Sys, start: int)
    requires Inv(s, start) && RecoverStep(s, t, start) && t.phase.Recovering?
    ensures Inv(t, start) && SameCommitted(t.disk, s.disk, start)
  {
    var was, k := s.phase.was, s.phase.done;
    RecoverPrefix(was, start, k);
    RecoverPrefix(was, start, k + 1);
    RecoverWritesInRange(was, start);
    ApplyNext(was, RecoverWrites(was, start), k);
  }

  lemma RecoverReturn(s: Sys, t: Sys, start: int)
    requires Inv(s, start) && RecoverStep(s, t, start) && t.phase.Running?
    ensures Inv(t, start) && RecoversTo(t.disk, t, start)
  {
    var ws := RecoverWrites(s.phase.was, start);
    assert ws[..s.phase.done] == ws;
    RecoverInstalls(s.phase.was, start);
  }

  /** Every step keeps the invariant, and either what the disk recovers to does
      not change, or it becomes the logical contents of a quiescent state: the
      new one.  A state that becomes settled is always of the second kind. */
  lemma Step(s: Sys, t: Sys, start: int, bound: nat)
    requires Inv(s, start) && Next(s, t, start, bound)
    ensures Inv(t, start)
    ensures || (SameCommitted(t.disk, s.disk, start) && !Settled(t))
            || (RecoversTo(t.disk, t, start) && Quiescent(t))
  {
    if p :| Begin(s, t, p) {
      assert p in t.ops;
    } else if p, b, v :| LogStep(s, t, p, b, v, start, bound) {
      InvWrite(s, t, p, b, v, start, bound);
      assert p in t.ops;
    } else if p :| End(s, t, p) {
      InvEnd(s, t, p, start);
    } else if CommitStep(s, t, start) {
      DuringCommit(s, t, start);
    } else if RecoverStep(s, t, start) {
      DuringRecovery(s, t, start);
    } else {
      InvCrash(s, t, start);
    }
  }

  lemma DuringCommit(s: Sys, t: Sys, start: int)
    requires Inv(s, start) && CommitStep(s, t, start)
    ensures Inv(t, start)
    ensures || (SameCommitted(t.disk, s.disk, start) && !Settled(t))
            || (RecoversTo(t.disk, t, start) && Quiescent(t))
  {
    if t.phase.Committing? {
      CommitStepDisk(s, t, start);
      if t.phase.done <= |t.lh| {
        CommitStepOld(s, t, start);
      } else {
        CommitStepNew(t, start);
      }
    } else {
      CommitReturn(s, t, start);
    }
  }

  lemma DuringRecovery(s: Sys, t: Sys, start: int)
    requires Inv(s, start) && RecoverStep(s, t, start)
    ensures Inv(t, start)
    ensures || (SameCommitted(t.disk, s.disk, start) && !Settled(t))
            || (RecoversTo(t.disk, t, start) && Quiescent(t))
  {
    if t.phase.Recovering? {
      RecoverStepDisk(s, t, start);
    } else {
      RecoverReturn(s, t, start);
    }
  }

  // ---- whole runs

  /** State j of the run is quiescent, the final disk recovers to exactly its
      contents, and no later settled state has other contents. */
  ghost predicate Survives(r: seq<Sys>, start: int, j: nat) {
    && j < |r| && Quiescent(r[j])
    && RecoversTo(r[|r| - 1].disk, r[j], start)
    && forall m :: j <= m < |r| && Settled(r[m]) ==> SameLogical(r[m], r[j], start)
  }

  lemma RunPrefix(r: seq<Sys>, start: int, bound: nat)
    requires Run(r, start, bound) && |r| > 1
    ensures Run(r[..|r| - 1], start, bound)
    ensures Next(r[|r| - 2], r[|r| - 1], start, bound)
  {
    var q := r[..|r| - 1];
    forall i | 0 <= i < |q| - 1 ensures Next(q[i], q[i + 1], start, bound) {
      assert Next(r[i], r[i + 1], start, bound);
    }
    assert Next(r[|r| - 2], r[|r| - 2 + 1], start, bound);
  }

  lemma SurvivesStill(r: seq<Sys>, start: int, j: nat)
    requires |r| > 1 && Survives(r[..|r| - 1], start, j)
    requires SameCommitted(r[|r| - 1].disk, r[|r| - 2].disk, start) && !Settled(r[|r| - 1])
    ensures Survives(r, start, j)
  {
    assert r[..|r| - 1][|r| - 2] == r[|r| - 2];
    forall m | j <= m < |r| && Settled(r[m]) ensures SameLogical(r[m], r[j], start) {
      assert r[..|r| - 1][m] == r[m];
    }
  }

  /** Group commit: at every moment of every run the disk recovers to the
      contents some earlier quiescent moment had, so no operation is ever partly
      durable, and nothing that was settled since is lost. */
  lemma {:induction false} NoPartialOperation(r: seq<Sys>, start: int, bound: nat)
    requires Run(r, start, bound)
    ensures Inv(r[|r| - 1], start)
    ensures exists j: nat :: Survives(r, start, j)
    decreases |r|
  {
    var n := |r| - 1;
    if n == 0 {
      InvInit(r[0], start);
      assert Survives(r, start, 0);
    } else {
      RunPrefix(r, start, bound);
      NoPartialOperation(r[..n], start, bound);
      Step(r[n - 1], r[n], start, bound);
      if RecoversTo(r[n].disk, r[n], start) && Quiescent(r[n]) {
        assert Survives(r, start, n);
      } else {
        var j: nat :| Survives(r[..n], start, j);
        SurvivesStill(r, start, j);
      }
    }
  }

  /** In every reachable state a commit under way means no operation is outstanding. */
  lemma CommittingAlone(r: seq<Sys>, start: int, bound: nat)
    requires Run(r, start, bound)
    ensures r[|r| - 1].phase.Committing? ==> r[|r| - 1].ops == map[]
  {
    NoPartialOperation(r, start, bound);
  }

  /** So end_op never finds log.committing set and never panics. */
  lemma EndOpNeverPanics(r: seq<Sys>, start: int, bound: nat, t: Sys, p: int)
    requires Run(r, start, bound) && End(r[|r| - 1], t, p)
    ensures !t.panicked
  {
    NoPartialOperation(r, start, bound);
    InvEnd(r[|r| - 1], t, p, start);
  }
}
