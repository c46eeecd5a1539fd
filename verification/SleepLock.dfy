/** sleep and wakeup of kernel/proc.c under the mutexes of kernel/proc.c and the
    sleep-locks of kernel/sleeplock.c, one lock operation or field access at a
    time.  Processes are 0 .. n - 1, locks are numbered likewise; the channel of
    a lock is its own number. */
module SleepLock {
  const FREE := -1     // a spinlock nobody holds
  const NOCHAN := -1

  datatype State = Running | Runnable | Sleeping

  /** Where a process is in the code for lock m. */
  datatype Pc =
    | Idle
    | LAcquire(m: int)                 // acquire(&lk->lk)
    | LTest(m: int)                    // while (locked)
    | SLock(m: int)                    // sleep: acquire(&p->lock)
    | SRelease(m: int)                 //        release(lk)
    | SChan(m: int)                    //        p->chan = chan
    | SState(m: int)                   //        p->state = SLEEPING
    | SSched(m: int)                   //        sched(), which gives up p->lock
    | Asleep(m: int)
    | Woken(m: int)                    //        p->chan = 0
    | WRelease(m: int)                 //        release(&p->lock)
    | LSet(m: int)                     // locked = 1
    | LRelease(m: int)                 // release(&lk->lk)
    | UAcquire(m: int)
    | UTest(m: int)                    // locked = 0
    | UWake(m: int, i: int)            // wakeup's loop at process i
    | UHold(m: int, i: int)            //   holding the lock of process i
    | URelease(m: int)

  datatype Sys = Sys(
    pc: seq<Pc>, state: seq<State>, chan: seq<int>,
    plock: seq<int>,                   // holder of p->lock
    spin: seq<int>,                    // holder of the lock's own spinlock
    locked: seq<bool>,
    log: seq<seq<bool>>)               // per lock: true for an acquisition, false for a release

  predicate Sizes(s: Sys) {
    && |s.pc| == |s.state| == |s.chan| == |s.plock|
    && |s.spin| == |s.locked| == |s.log|
  }

  predicate IsProc(s: Sys, p: int) {
    0 <= p < |s.pc|
  }

  predicate IsLock(s: Sys, m: int) {
    0 <= m < |s.spin|
  }

  /** Process p takes one step.  A mutex (checked) is only unlocked when it is
      locked; a sleep-lock is released unconditionally. */
  ghost predicate Move(s: Sys, t: Sys, p: int, checked: set<int>)
    requires Sizes(s) && IsProc(s, p)
    requires s.pc[p].Idle? || IsLock(s, s.pc[p].m)
  {
    match s.pc[p]
    case Idle =>
      exists m :: IsLock(s, m) && (t == s.(pc := s.pc[p := LAcquire(m)]) || t == s.(pc := s.pc[p := UAcquire(m)]))
    case LAcquire(m) => s.spin[m] == FREE && t == s.(spin := s.spin[m := p], pc := s.pc[p := LTest(m)])
    case LTest(m) => t == s.(pc := s.pc[p := if s.locked[m] then SLock(m) else LSet(m)])
    case SLock(m) => s.plock[p] == FREE && t == s.(plock := s.plock[p := p], pc := s.pc[p := SRelease(m)])
    case SRelease(m) => t == s.(spin := s.spin[m := FREE], pc := s.pc[p := SChan(m)])
    case SChan(m) => t == s.(chan := s.chan[p := m], pc := s.pc[p := SState(m)])
    case SState(m) => t == s.(state := s.state[p := Sleeping], pc := s.pc[p := SSched(m)])
    case SSched(m) => t == s.(plock := s.plock[p := FREE], pc := s.pc[p := Asleep(m)])
    case Asleep(m) =>
      && s.state[p].Runnable? && s.plock[p] == FREE
      && t == s.(plock := s.plock[p := p], state := s.state[p := Running], pc := s.pc[p := Woken(m)])
    case Woken(m) => t == s.(chan := s.chan[p := NOCHAN], pc := s.pc[p := WRelease(m)])
    case WRelease(m) => t == s.(plock := s.plock[p := FREE], pc := s.pc[p := LAcquire(m)])
    case LSet(m) =>
      t == s.(locked := s.locked[m := true], log := s.log[m := s.log[m] + [true]], pc := s.pc[p := LRelease(m)])
    case LRelease(m) => t == s.(spin := s.spin[m := FREE], pc := s.pc[p := Idle])
    case UAcquire(m) => s.spin[m] == FREE && t == s.(spin := s.spin[m := p], pc := s.pc[p := UTest(m)])
    case UTest(m) =>
      if m in checked && !s.locked[m] then t == s.(pc := s.pc[p := URelease(m)])
      else t == s.(locked := s.locked[m := false], log := s.log[m := s.log[m] + [false]], pc := s.pc[p := UWake(m, 0)])
    case UWake(m, i) =>
      if !IsProc(s, i) then t == s.(pc := s.pc[p := URelease(m)])
      else if i == p then t == s.(pc := s.pc[p := UWake(m, i + 1)])
      else s.plock[i] == FREE && t == s.(plock := s.plock[i := p], pc := s.pc[p := UHold(m, i)])
    case UHold(m, i) =>
      && IsProc(s, i)
      && var woken := if s.state[i].Sleeping? && s.chan[i] == m then Runnable else s.state[i];
         t == s.(state := s.state[i := woken], plock := s.plock[i := FREE], pc := s.pc[p := UWake(m, i + 1)])
    case URelease(m) => t == s.(spin := s.spin[m := FREE], pc := s.pc[p := Idle])
  }

  /** kkill wakes a sleeping process whatever it sleeps on. */
  ghost predicate Kill(s: Sys, t: Sys, p: int)
    requires Sizes(s) && IsProc(s, p)
  {
    s.plock[p] == FREE && s.state[p].Sleeping? && t == s.(state := s.state[p := Runnable])
  }

  // ---- the invariant

  /** p is in a part of the code that holds the lock's spinlock. */
  predicate HoldsSpin(x: Pc) {
    || x.LTest? || x.SLock? || x.SRelease? || x.LSet? || x.LRelease?
    || x.UTest? || x.UWake? || x.UHold? || x.URelease?
  }

  /** p is in a part of the code that holds its own p->lock. */
  predicate HoldsSelf(x: Pc) {
    x.SRelease? || x.SChan? || x.SState? || x.SSched? || x.Woken? || x.WRelease?
  }

  predicate Unlocking(x: Pc) {
    x.UAcquire? || x.UTest? || x.UWake? || x.UHold? || x.URelease?
  }

  /** In sleep, or on the way back from it. */
  predicate Dozing(x: Pc) {
    x.SLock? || x.SRelease? || x.SChan? || x.SState? || x.SSched? || x.Asleep? || x.Woken? || x.WRelease?
  }

  /** What the code position of p says about the fields it relies on. */
  predicate Local(s: Sys, p: int)
    requires Sizes(s) && IsProc(s, p)
  {
    var x := s.pc[p];
    && (x.Idle? || IsLock(s, x.m))
    && (HoldsSpin(x) ==> s.spin[x.m] == p)
    && (HoldsSelf(x) ==> s.plock[p] == p)
    && (x.UHold? ==> IsProc(s, x.i) && x.i != p && s.plock[x.i] == p)
    && (x.UWake? ==> 0 <= x.i <= |s.pc|)
    && (x.SState? || x.SSched? || x.Asleep? ==> s.chan[p] == x.m)
    && (if x.SSched? then s.state[p].Sleeping? else if x.Asleep? then !s.state[p].Running? else s.state[p].Running?)
    && (x.SLock? || x.SRelease? || x.LRelease? ==> s.locked[x.m])
    && (x.LSet? || x.UWake? || x.UHold? || x.URelease? ==> !s.locked[x.m])
  }

  /** p sleeps on m, or has released m's spinlock in order to sleep on it. */
  predicate Committed(s: Sys, p: int, m: int)
    requires Sizes(s) && IsProc(s, p)
  {
    || s.pc[p] == SChan(m) || s.pc[p] == SState(m) || s.pc[p] == SSched(m)
    || (s.pc[p] == Asleep(m) && s.state[p].Sleeping?)
  }

  /** The holder of m's spinlock is in wakeup and has yet to look at p. */
  predicate Ahead(s: Sys, p: int, m: int)
    requires Sizes(s) && IsLock(s, m)
  {
    var w := s.spin[m];
    IsProc(s, w) && (s.pc[w].UWake? || s.pc[w].UHold?) && s.pc[w].m == m && s.pc[w].i <= p
  }

  /** A held spinlock is held by a process that is in the right code for it. */
  predicate SpinOk(s: Sys, m: int)
    requires Sizes(s) && IsLock(s, m)
  {
    var w := s.spin[m];
    w == FREE || (IsProc(s, w) && HoldsSpin(s.pc[w]) && s.pc[w].m == m)
  }

  predicate PlockOk(s: Sys, p: int)
    requires Sizes(s) && IsProc(s, p)
  {
    var w := s.plock[p];
    || w == FREE
    || (IsProc(s, w) && if w == p then HoldsSelf(s.pc[p]) else s.pc[w].UHold? && s.pc[w].i == p)
  }

  /** No lost wakeup: who is committed to sleep on m will be woken, because m is
      still locked or because the waker has not come to p yet. */
  predicate WakeupOk(s: Sys, p: int, m: int)
    requires Sizes(s) && IsProc(s, p) && IsLock(s, m)
  {
    Committed(s, p, m) ==> s.locked[m] || Ahead(s, p, m)
  }

  ghost predicate Inv(s: Sys) {
    && Sizes(s)
    && (forall p :: IsProc(s, p) ==> Local(s, p))
    && (forall m :: IsLock(s, m) ==> SpinOk(s, m))
    && (forall p :: IsProc(s, p) ==> PlockOk(s, p))
    && (forall p, m :: IsProc(s, p) && IsLock(s, m) ==> WakeupOk(s, p, m))
  }

  lemma SizesMove(s: Sys, t: Sys, p: int, checked: set<int>)
    requires Sizes(s) && IsProc(s, p) && Local(s, p) && Move(s, t, p, checked)
    ensures Sizes(t) && |t.pc| == |s.pc| && |t.spin| == |s.spin|
  {}

  lemma LocalSelf(s: Sys, t: Sys, p: int, checked: set<int>)
    requires Sizes(s) && IsProc(s, p) && Local(s, p) && Move(s, t, p, checked)
    requires Sizes(t) && |t.pc| == |s.pc| && |t.spin| == |s.spin|
    ensures Local(t, p)
  {}

  /** A step of p does not disturb what another process relies on, because each
      field it changes is guarded by a lock that p holds. */
  lemma LocalOther(s: Sys, t: Sys, p: int, checked: set<int>, q: int)
    requires Sizes(s) && IsProc(s, p) && Local(s, p) && Move(s, t, p, checked)
    requires IsProc(s, q) && Local(s, q) && q != p
    requires Sizes(t) && |t.pc| == |s.pc| && |t.spin| == |s.spin|
    ensures Local(t, q)
  {
    if Unlocking(s.pc[p]) {
      LocalUnlock(s, t, p, checked, q);
    } else if Dozing(s.pc[p]) {
      LocalSleep(s, t, p, checked, q);
    } else {
      LocalLock(s, t, p, checked, q);
    }
  }

  lemma LocalSleep(s: Sys, t: Sys, p: int, checked: set<int>, q: int)
    requires Sizes(s) && IsProc(s, p) && Local(s, p) && Move(s, t, p, checked) && Dozing(s.pc[p])
    requires IsProc(s, q) && Local(s, q) && q != p
    requires Sizes(t) && |t.pc| == |s.pc| && |t.spin| == |s.spin|
    ensures Local(t, q)
  {}

  lemma LocalUnlock(s: Sys, t: Sys, p: int, checked: set<int>, q: int)
    requires Sizes(s) && IsProc(s, p) && Local(s, p) && Move(s, t, p, checked) && Unlocking(s.pc[p])
    requires IsProc(s, q) && Local(s, q) && q != p
    requires Sizes(t) && |t.pc| == |s.pc| && |t.spin| == |s.spin|
    ensures Local(t, q)
  {}

  lemma LocalLock(s: Sys, t: Sys, p: int, checked: set<int>, q: int)
    requires Sizes(s) && IsProc(s, p) && Local(s, p) && Move(s, t, p, checked)
    requires !Unlocking(s.pc[p]) && !Dozing(s.pc[p])
    requires IsProc(s, q) && Local(s, q) && q != p
    requires Sizes(t) && |t.pc| == |s.pc| && |t.spin| == |s.spin|
    ensures Local(t, q)
  {}

  lemma SpinMove(s: Sys, t: Sys, p: int, checked: set<int>, m: int)
    requires Sizes(s) && IsProc(s, p) && Local(s, p) && Move(s, t, p, checked)
    requires IsLock(s, m) && SpinOk(s, m) && Sizes(t) && |t.pc| == |s.pc| && |t.spin| == |s.spin|
    ensures SpinOk(t, m)
  {}

  lemma PlockMove(s: Sys, t: Sys, p: int, checked: set<int>, q: int)
    requires Sizes(s) && IsProc(s, p) && Local(s, p) && Move(s, t, p, checked)
    requires IsProc(s, q) && PlockOk(s, q) && Sizes(t) && |t.pc| == |s.pc| && |t.spin| == |s.spin|
    ensures PlockOk(t, q)
  {}

  lemma WakeupMove(s: Sys, t: Sys, p: int, checked: set<int>, q: int, m: int)
    requires Sizes(s) && IsProc(s, p) && Local(s, p) && Move(s, t, p, checked)
    requires IsProc(s, q) && IsLock(s, m) && WakeupOk(s, q, m) && SpinOk(s, m) && Local(s, q)
    requires Sizes(t) && |t.pc| == |s.pc| && |t.spin| == |s.spin|
    ensures WakeupOk(t, q, m)
  {
    if Unlocking(s.pc[p]) {
      WakeupUnlock(s, t, p, checked, q, m);
    } else {
      WakeupLock(s, t, p, checked, q, m);
    }
  }

  lemma WakeupUnlock(s: Sys, t: Sys, p: int, checked: set<int>, q: int, m: int)
    requires Sizes(s) && IsProc(s, p) && Local(s, p) && Move(s, t, p, checked) && Unlocking(s.pc[p])
    requires IsProc(s, q) && IsLock(s, m) && WakeupOk(s, q, m) && SpinOk(s, m) && Local(s, q)
    requires Sizes(t) && |t.pc| == |s.pc| && |t.spin| == |s.spin|
    ensures WakeupOk(t, q, m)
  {}

  lemma WakeupLock(s: Sys, t: Sys, p: int, checked: set<int>, q: int, m: int)
    requires Sizes(s) && IsProc(s, p) && Local(s, p) && Move(s, t, p, checked) && !Unlocking(s.pc[p])
    requires IsProc(s, q) && IsLock(s, m) && WakeupOk(s, q, m) && SpinOk(s, m) && Local(s, q)
    requires Sizes(t) && |t.pc| == |s.pc| && |t.spin| == |s.spin|
    ensures WakeupOk(t, q, m)
  {}

  lemma InvMove(s: Sys, t: Sys, p: int, checked: set<int>)
    requires Inv(s) && IsProc(s, p) && Local(s, p) && Move(s, t, p, checked)
    ensures Inv(t)
  {
    SizesMove(s, t, p, checked);
    LocalSelf(s, t, p, checked);
    forall q | IsProc(s, q) ensures Local(t, q) && PlockOk(t, q) {
      if q != p {
        LocalOther(s, t, p, checked, q);
      }
      PlockMove(s, t, p, checked, q);
    }
    forall m | IsLock(s, m) ensures SpinOk(t, m) {
      SpinMove(s, t, p, checked, m);
    }
    forall q, m | IsProc(s, q) && IsLock(s, m) ensures WakeupOk(t, q, m) {
      WakeupMove(s, t, p, checked, q, m);
    }
  }

  lemma InvKill(s: Sys, t: Sys, p: int)
    requires Inv(s) && IsProc(s, p) && Kill(s, t, p)
    ensures Inv(t)
  {
    forall q | IsProc(s, q) ensures Local(t, q) && PlockOk(t, q) {
      assert Local(s, q) && PlockOk(s, q);
    }
    forall m | IsLock(s, m) ensures SpinOk(t, m) {
      assert SpinOk(s, m);
    }
    forall q, m | IsProc(s, q) && IsLock(s, m) ensures WakeupOk(t, q, m) {
      assert WakeupOk(s, q, m);
    }
  }

  // ---- runs

  /** Acquisitions and releases take turns, an acquisition first, and the lock is
      held exactly after an acquisition. */
  predicate Alternating(s: Sys, m: int)
    requires Sizes(s) && IsLock(s, m)
  {
    && (forall k :: 0 <= k < |s.log[m]| ==> s.log[m][k] == (k % 2 == 0))
    && s.locked[m] == (|s.log[m]| % 2 == 1)
  }

  ghost predicate Init(s: Sys) {
    && Sizes(s)
    && (forall p :: IsProc(s, p) ==> s.pc[p] == Idle && s.state[p] == Running && s.plock[p] == FREE)
    && (forall m :: IsLock(s, m) ==> s.spin[m] == FREE && s.log[m] == if s.locked[m] then [true] else [])
  }

  ghost predicate Next(s: Sys, t: Sys, checked: set<int>) {
    && Sizes(s)
    && exists p :: IsProc(s, p) &&
         (((s.pc[p].Idle? || IsLock(s, s.pc[p].m)) && Move(s, t, p, checked)) || Kill(s, t, p))
  }

  ghost predicate Run(r: seq<Sys>, checked: set<int>) {
    && r != [] && Init(r[0])
    && forall i :: 0 <= i < |r| - 1 ==> Next(r[i], r[i + 1], checked)
  }

  lemma AlternatingMove(s: Sys, t: Sys, p: int, checked: set<int>, m: int)
    requires Sizes(s) && IsProc(s, p) && Local(s, p) && Move(s, t, p, checked)
    requires IsLock(s, m) && m in checked && Alternating(s, m) && Sizes(t) && |t.spin| == |s.spin|
    ensures Alternating(t, m)
  {}

  ghost predicate RunInv(s: Sys, checked: set<int>) {
    Inv(s) && forall m :: IsLock(s, m) && m in checked ==> Alternating(s, m)
  }

  lemma RunInvStep(s: Sys, t: Sys, checked: set<int>)
    requires RunInv(s, checked) && Next(s, t, checked)
    ensures RunInv(t, checked)
  {
    var p :| IsProc(s, p) && (((s.pc[p].Idle? || IsLock(s, s.pc[p].m)) && Move(s, t, p, checked)) || Kill(s, t, p));
    if Kill(s, t, p) {
      InvKill(s, t, p);
      forall m | IsLock(t, m) && m in checked ensures Alternating(t, m) {
        assert Alternating(s, m);
      }
    } else {
      SizesMove(s, t, p, checked);
      InvMove(s, t, p, checked);
      forall m | IsLock(t, m) && m in checked ensures Alternating(t, m) {
        AlternatingMove(s, t, p, checked, m);
      }
    }
  }

  lemma {:induction false} RunInvAll(r: seq<Sys>, checked: set<int>)
    requires Run(r, checked)
    ensures RunInv(r[|r| - 1], checked)
    decreases |r|
  {
    var n := |r| - 1;
    if n > 0 {
      RunPrefix(r, checked);
      RunInvAll(r[..n], checked);
      RunInvStep(r[n - 1], r[n], checked);
    } else {
      InitInv(r[0], checked);
    }
  }

  lemma RunPrefix(r: seq<Sys>, checked: set<int>)
    requires Run(r, checked) && |r| > 1
    ensures Run(r[..|r| - 1], checked) && Next(r[|r| - 2], r[|r| - 1], checked)
  {
    var q := r[..|r| - 1];
    forall i | 0 <= i < |q| - 1 ensures Next(q[i], q[i + 1], checked) {
      assert Next(r[i], r[i + 1], checked);
    }
    assert Next(r[|r| - 2], r[|r| - 2 + 1], checked);
  }

  lemma InitInv(s: Sys, checked: set<int>)
    requires Init(s)
    ensures RunInv(s, checked)
  {}

  /** No lost wakeup: in every interleaving, whenever the spinlock of m is free,
      a process that sleeps on m or has committed itself to do so finds m locked,
      so that some later unlock will wake it. */
  lemma NoLostWakeup(r: seq<Sys>, checked: set<int>, p: int, m: int)
    requires Run(r, checked)
    ensures var s := r[|r| - 1];
      Sizes(s) && (IsProc(s, p) && IsLock(s, m) && s.spin[m] == FREE && Committed(s, p, m) ==> s.locked[m])
  {
    RunInvAll(r, checked);
    var s := r[|r| - 1];
    if IsProc(s, p) && IsLock(s, m) {
      assert WakeupOk(s, p, m);
    }
  }

  /** Successful acquisitions and releases of a mutex strictly alternate. */
  lemma MutexAlternates(r: seq<Sys>, checked: set<int>, m: int)
    requires Run(r, checked) && m in checked
    ensures var s := r[|r| - 1]; Sizes(s) && (IsLock(s, m) ==> Alternating(s, m))
  {
    RunInvAll(r, checked);
  }
}
