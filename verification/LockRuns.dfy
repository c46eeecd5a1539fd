/** What callers of the mutexes and sleep-locks get: the lock, when the call to
    lock returns; and that calls do return, in runs that go on from any state of
    any run in which the locks they need are free. */
module LockRuns {
  import opened SleepLock

  /** In the code for locking m, from the first acquire to the last release. */
  predicate Locking(x: Pc, m: int) {
    || x == LAcquire(m) || x == LTest(m) || x == LSet(m) || x == LRelease(m)
    || (Dozing(x) && x.m == m)
  }

  /** p comes back from its call between the two states. */
  predicate Returns(s: Sys, t: Sys, p: int) {
    Sizes(s) && Sizes(t) && IsProc(s, p) && IsProc(t, p) && !s.pc[p].Idle? && t.pc[p].Idle?
  }

  /** The step that returns is a release of the spinlock, by p itself. */
  lemma ReturnMove(s: Sys, t: Sys, checked: set<int>, p: int, q: int)
    requires Sizes(s) && IsProc(s, q) && Local(s, q) && Move(s, t, q, checked) && Returns(s, t, p)
    ensures s.pc[p].LRelease? || s.pc[p].URelease?
    ensures p == q && t == s.(spin := s.spin[s.pc[p].m := FREE], pc := s.pc[p := Idle])
  {}

  lemma ReturnStep(s: Sys, t: Sys, checked: set<int>, p: int)
    requires RunInv(s, checked) && Next(s, t, checked) && Returns(s, t, p)
    ensures s.pc[p].LRelease? || s.pc[p].URelease?
    ensures Local(s, p) && t == s.(spin := s.spin[s.pc[p].m := FREE], pc := s.pc[p := Idle])
  {
    var q :| IsProc(s, q) && (((s.pc[q].Idle? || IsLock(s, s.pc[q].m)) && Move(s, t, q, checked)) || Kill(s, t, q));
    assert Local(s, p) && Local(s, q);
    if !Kill(s, t, q) {
      ReturnMove(s, t, checked, p, q);
    }
  }

  lemma At(r: seq<Sys>, checked: set<int>, i: nat)
    requires Run(r, checked) && i < |r|
    ensures RunInv(r[i], checked)
  {
    var q := r[..i + 1];
    forall j | 0 <= j < |q| - 1 ensures Next(q[j], q[j + 1], checked) {
      assert Next(r[j], r[j + 1], checked);
    }
    RunInvAll(q, checked);
  }

  /** In every run, a process that comes back from locking m, whether or not it
      slept, leaves m locked and its spinlock free, and the last thing that
      happened to a mutex is an acquisition. */
  lemma LockReturns(r: seq<Sys>, checked: set<int>, i: nat, p: int, m: int)
    requires Run(r, checked) && i + 1 < |r|
    requires Returns(r[i], r[i + 1], p) && Locking(r[i].pc[p], m)
    ensures IsLock(r[i + 1], m) && r[i + 1].locked[m] && r[i + 1].spin[m] == FREE
    ensures m in checked ==> r[i + 1].log[m] != [] && r[i + 1].log[m][|r[i + 1].log[m]| - 1]
  {
    var s, t := r[i], r[i + 1];
    At(r, checked, i);
    ReturnStep(s, t, checked, p);
    if m in checked {
      assert Alternating(s, m);
    }
  }

  /** In every run, a process that comes back from unlocking m leaves m free. */
  lemma UnlockReturns(r: seq<Sys>, checked: set<int>, i: nat, p: int, m: int)
    requires Run(r, checked) && i + 1 < |r|
    requires Returns(r[i], r[i + 1], p) && Unlocking(r[i].pc[p]) && r[i].pc[p].m == m
    ensures IsLock(r[i + 1], m) && !r[i + 1].locked[m] && r[i + 1].spin[m] == FREE
  {
    At(r, checked, i);
    ReturnStep(r[i], r[i + 1], checked, p);
  }

  // ---- calls that go through

  function Last(r: seq<Sys>): (s: Sys)
    requires r != []
  {
    r[|r| - 1]
  }

  predicate Ready(r: seq<Sys>, p: int, m: int) {
    r != [] && Sizes(Last(r)) && IsProc(Last(r), p) && IsLock(Last(r), m)
  }

  lemma Append(r: seq<Sys>, checked: set<int>, t: Sys, p: int) returns (r2: seq<Sys>)
    requires Run(r, checked) && Sizes(Last(r)) && IsProc(Last(r), p)
    requires (Last(r).pc[p].Idle? || IsLock(Last(r), Last(r).pc[p].m)) && Move(Last(r), t, p, checked)
    ensures Run(r2, checked) && r <= r2 && Last(r2) == t
  {
    r2 := r + [t];
    forall i | 0 <= i < |r2| - 1 ensures Next(r2[i], r2[i + 1], checked) {
      if i < |r| - 1 {
        assert Next(r[i], r[i + 1], checked);
      }
    }
  }

  /** A free lock can be taken, at once, by a process that is at the acquire. */
  lemma CanLock(r: seq<Sys>, checked: set<int>, p: int, m: int) returns (r2: seq<Sys>)
    requires Run(r, checked) && Ready(r, p, m) && Last(r).pc[p] == LAcquire(m)
    requires Last(r).spin[m] == FREE && !Last(r).locked[m]
    ensures Run(r2, checked) && r <= r2 && Ready(r2, p, m)
    ensures Last(r2).pc == Last(r).pc[p := Idle] && Last(r2).locked == Last(r).locked[m := true]
  {
    var s := Last(r);
    var s1 := s.(spin := s.spin[m := p], pc := s.pc[p := LTest(m)]);
    var r1 := Append(r, checked, s1, p);
    var s2 := s1.(pc := s1.pc[p := LSet(m)]);
    var r3 := Append(r1, checked, s2, p);
    var s3 := s2.(locked := s2.locked[m := true], log := s2.log[m := s2.log[m] + [true]],
                  pc := s2.pc[p := LRelease(m)]);
    var r4 := Append(r3, checked, s3, p);
    r2 := Append(r4, checked, s3.(spin := s3.spin[m := FREE], pc := s3.pc[p := Idle]), p);
    assert Last(r2).pc == s.pc[p := Idle];
  }

  /** A process that has been woken can take the lock if it is still free. */
  lemma CanWakeUp(r: seq<Sys>, checked: set<int>, p: int, m: int) returns (r2: seq<Sys>)
    requires Run(r, checked) && Ready(r, p, m) && Last(r).pc[p] == Asleep(m)
    requires Last(r).state[p].Runnable? && Last(r).plock[p] == FREE
    requires Last(r).spin[m] == FREE && !Last(r).locked[m]
    ensures Run(r2, checked) && r <= r2 && Ready(r2, p, m)
    ensures Last(r2).pc == Last(r).pc[p := Idle] && Last(r2).locked == Last(r).locked[m := true]
  {
    var s := Last(r);
    var s1 := s.(plock := s.plock[p := p], state := s.state[p := Running], pc := s.pc[p := Woken(m)]);
    var r1 := Append(r, checked, s1, p);
    var s2 := s1.(chan := s1.chan[p := NOCHAN], pc := s1.pc[p := WRelease(m)]);
    var r3 := Append(r1, checked, s2, p);
    var s3 := s2.(plock := s2.plock[p := FREE], pc := s2.pc[p := LAcquire(m)]);
    var r4 := Append(r3, checked, s3, p);
    assert s3.pc == s.pc[p := LAcquire(m)];
    r2 := CanLock(r4, checked, p, m);
    assert Last(r2).pc == s.pc[p := Idle];
  }

  /** Every process lock is free. */
  predicate Quiet(s: Sys) {
    forall q :: 0 <= q < |s.plock| ==> s.plock[q] == FREE
  }

  /** q sleeps on m. */
  predicate SleepsOn(s: Sys, q: int, m: int) {
    Sizes(s) && IsProc(s, q) && s.state[q].Sleeping? && s.chan[q] == m
  }

  /** From s to t, exactly the sleepers on m from process i on are woken, apart
      from p, which is in the code of wakeup itself. */
  predicate WokeFrom(s: Sys, t: Sys, i: int, p: int, m: int) {
    && Sizes(s) && Sizes(t) && |t.pc| == |s.pc|
    && forall q {:trigger t.state[q]} :: 0 <= q < |s.pc| ==>
         t.state[q] == if i <= q && q != p && SleepsOn(s, q, m) then Runnable else s.state[q]
  }

  /** wakeup's loop can run to its end, and wakes exactly the sleepers on m. */
  lemma {:induction false} CanFinishWakeup(r: seq<Sys>, checked: set<int>, p: int, m: int, i: int)
    returns (r2: seq<Sys>)
    requires Run(r, checked) && Ready(r, p, m) && Quiet(Last(r))
    requires 0 <= i <= |Last(r).pc| && Last(r).pc[p] == UWake(m, i)
    ensures Run(r2, checked) && r <= r2 && Ready(r2, p, m) && Quiet(Last(r2))
    ensures Last(r2).pc == Last(r).pc[p := URelease(m)]
    ensures Last(r2).locked == Last(r).locked && Last(r2).spin == Last(r).spin
    ensures WokeFrom(Last(r), Last(r2), i, p, m)
    decreases |Last(r).pc| - i
  {
    var s := Last(r);
    if i == |s.pc| {
      r2 := Append(r, checked, s.(pc := s.pc[p := URelease(m)]), p);
    } else {
      var r1 := CanPass(r, checked, p, m, i);
      r2 := CanFinishWakeup(r1, checked, p, m, i + 1);
      assert Last(r1).pc[p := URelease(m)] == s.pc[p := URelease(m)];
    }
  }

  /** One round of wakeup's loop. */
  lemma CanPass(r: seq<Sys>, checked: set<int>, p: int, m: int, i: int) returns (r2: seq<Sys>)
    requires Run(r, checked) && Ready(r, p, m) && Quiet(Last(r))
    requires 0 <= i < |Last(r).pc| && Last(r).pc[p] == UWake(m, i)
    ensures Run(r2, checked) && r <= r2 && Ready(r2, p, m) && Quiet(Last(r2))
    ensures Last(r2).pc == Last(r).pc[p := UWake(m, i + 1)] && Last(r2).chan == Last(r).chan
    ensures Last(r2).locked == Last(r).locked && Last(r2).spin == Last(r).spin
    ensures Last(r2).state ==
            if i != p && SleepsOn(Last(r), i, m) then Last(r).state[i := Runnable] else Last(r).state
  {
    var s := Last(r);
    if i == p {
      r2 := Append(r, checked, s.(pc := s.pc[p := UWake(m, i + 1)]), p);
    } else {
      var s1 := s.(plock := s.plock[i := p], pc := s.pc[p := UHold(m, i)]);
      var r1 := Append(r, checked, s1, p);
      var woken := if s1.state[i].Sleeping? && s1.chan[i] == m then Runnable else s1.state[i];
      var s2 := s1.(state := s1.state[i := woken], plock := s1.plock[i := FREE], pc := s1.pc[p := UWake(m, i + 1)]);
      r2 := Append(r1, checked, s2, p);
      assert s2.pc == s.pc[p := UWake(m, i + 1)];
      assert woken == s.state[i] ==> s2.state == s.state;
    }
  }

  /** A held lock can be released while its spinlock and the process locks are
      free, and everyone asleep on it, and nobody else, is woken. */
  lemma CanUnlock(r: seq<Sys>, checked: set<int>, p: int, m: int) returns (r2: seq<Sys>)
    requires Run(r, checked) && Ready(r, p, m) && Quiet(Last(r)) && Last(r).pc[p] == UAcquire(m)
    requires Last(r).spin[m] == FREE && Last(r).locked[m]
    ensures Run(r2, checked) && r <= r2 && Ready(r2, p, m)
    ensures Last(r2).pc == Last(r).pc[p := Idle] && Last(r2).locked == Last(r).locked[m := false]
    ensures Last(r2).spin == Last(r).spin && WokeFrom(Last(r), Last(r2), 0, p, m)
  {
    var s := Last(r);
    var s1 := s.(spin := s.spin[m := p], pc := s.pc[p := UTest(m)]);
    var r1 := Append(r, checked, s1, p);
    var s2 := s1.(locked := s1.locked[m := false], log := s1.log[m := s1.log[m] + [false]],
                  pc := s1.pc[p := UWake(m, 0)]);
    var r3 := Append(r1, checked, s2, p);
    var r4 := CanFinishWakeup(r3, checked, p, m, 0);
    var s4 := Last(r4);
    r2 := Append(r4, checked, s4.(spin := s4.spin[m := FREE], pc := s4.pc[p := Idle]), p);
    assert Last(r2).pc == s.pc[p := Idle];
    assert Last(r2).spin == s.spin;
  }
}
