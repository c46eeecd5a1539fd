/** fork, exit and wait of kernel/proc.c: parents, orphans and zombies under
    wait_lock.  Processes are the slots 0 .. n - 1 of the process table; a
    process asleep in kwait sleeps on its own slot as channel. */
module ExitWait {
  const FREE := -1
  const NONE := -1
  const INIT := 0      // initproc

  datatype State = Unused | Used | Running | Sleeping | Zombie

  datatype Pc =
    | NoProc                           // the slot holds no running process
    | Idle
    | FParent(c: int)                  // kfork: acquire(&wait_lock)
    | FSet(c: int)                     //   np->parent = p
    | FRelease(c: int)
    | FRun(c: int)                     //   np->state = RUNNABLE under np->lock
    | XAcquire                         // kexit: acquire(&wait_lock)
    | XOrphans(i: int)                 //   reparent's loop
    | XInit(i: int, j: int)            //     wakeup(initproc) for child i
    | XParent(j: int)                  //   wakeup(p->parent)
    | XLock                            //   acquire(&p->lock)
    | XZombie                          //   p->state = ZOMBIE
    | XRelease                         //   release(&wait_lock)
    | XSched
    | Dead
    | KAcquire                         // kwait: acquire(&wait_lock)
    | KScan(i: int, kids: bool)        //   table scan
    | KLock                            //   sleep: acquire(&p->lock)
    | KRelease                         //     release(&wait_lock)
    | KState                           //     p->state = SLEEPING
    | KSched
    | KAsleep
    | KReturn                          //   release(&wait_lock), return

  datatype Sys = Sys(pc: seq<Pc>, state: seq<State>, parent: seq<int>, plock: seq<int>, waitlock: int)

  predicate Sizes(s: Sys) {
    |s.pc| == |s.state| == |s.parent| == |s.plock| > INIT
  }

  predicate IsProc(s: Sys, p: int) {
    0 <= p < |s.pc|
  }

  /** The new state, field by field. */
  ghost predicate Becomes(t: Sys, pc: seq<Pc>, state: seq<State>, parent: seq<int>, plock: seq<int>, waitlock: int) {
    t.pc == pc && t.state == state && t.parent == parent && t.plock == plock && t.waitlock == waitlock
  }

  ghost predicate Goto(s: Sys, t: Sys, p: int, x: Pc)
    requires IsProc(s, p)
  {
    Becomes(t, s.pc[p := x], s.state, s.parent, s.plock, s.waitlock)
  }

  /** p acquires wait_lock. */
  ghost predicate Takes(s: Sys, t: Sys, p: int, x: Pc)
    requires IsProc(s, p)
  {
    s.waitlock == FREE && Becomes(t, s.pc[p := x], s.state, s.parent, s.plock, p)
  }

  /** p releases wait_lock. */
  ghost predicate Drops(s: Sys, t: Sys, p: int, x: Pc)
    requires IsProc(s, p)
  {
    Becomes(t, s.pc[p := x], s.state, s.parent, s.plock, FREE)
  }

  /** The lock of p itself. */
  ghost predicate SetsLock(s: Sys, t: Sys, p: int, x: Pc, holder: int)
    requires Sizes(s) && IsProc(s, p)
  {
    Becomes(t, s.pc[p := x], s.state, s.parent, s.plock[p := holder], s.waitlock)
  }

  ghost predicate SetsState(s: Sys, t: Sys, p: int, x: Pc, q: int, st: State)
    requires Sizes(s) && IsProc(s, p) && IsProc(s, q)
  {
    Becomes(t, s.pc[p := x], s.state[q := st], s.parent, s.plock, s.waitlock)
  }

  /** wakeup(chan) at process j: a process asleep in kwait sleeps on itself. */
  ghost predicate Wakes(s: Sys, t: Sys, p: int, x: Pc, j: int, chan: int)
    requires Sizes(s) && IsProc(s, p) && IsProc(s, j)
  {
    && s.plock[j] == FREE
    && if s.state[j].Sleeping? && j == chan then SetsState(s, t, p, x, j, Running) else Goto(s, t, p, x)
  }

  ghost predicate Fork(s: Sys, t: Sys, p: int)
    requires Sizes(s) && IsProc(s, p)
  {
    match s.pc[p]
    case Idle =>  // allocproc finds a slot
      exists c :: IsProc(s, c) && c != p && s.plock[c] == FREE && s.state[c].Unused? &&
        SetsState(s, t, p, FParent(c), c, Used)
    case FParent(c) =>
      || Takes(s, t, p, FSet(c))
      || (IsProc(s, c) && SetsState(s, t, p, Idle, c, Unused))  // uvmcopy failed
    case FSet(c) => IsProc(s, c) && Becomes(t, s.pc[p := FRelease(c)], s.state, s.parent[c := p], s.plock, s.waitlock)
    case FRelease(c) => Drops(s, t, p, FRun(c))
    case FRun(c) =>
      && IsProc(s, c) && c != p && s.plock[c] == FREE
      && Becomes(t, s.pc[p := Idle][c := Idle], s.state[c := Running], s.parent, s.plock, s.waitlock)
    case _ => false
  }

  ghost predicate Exit(s: Sys, t: Sys, p: int)
    requires Sizes(s) && IsProc(s, p)
  {
    match s.pc[p]
    case Idle => p != INIT && Goto(s, t, p, XAcquire)
    case XAcquire => Takes(s, t, p, XOrphans(0))
    case XOrphans(i) =>
      if !IsProc(s, i) then Goto(s, t, p, XParent(0))
      else if s.parent[i] == p then
        Becomes(t, s.pc[p := XInit(i, 0)], s.state, s.parent[i := INIT], s.plock, s.waitlock)
      else Goto(s, t, p, XOrphans(i + 1))
    case XInit(i, j) =>
      if !IsProc(s, j) then Goto(s, t, p, XOrphans(i + 1))
      else if j == p then Goto(s, t, p, XInit(i, j + 1))
      else Wakes(s, t, p, XInit(i, j + 1), j, INIT)
    case XParent(j) =>
      if !IsProc(s, j) then Goto(s, t, p, XLock)
      else if j == p then Goto(s, t, p, XParent(j + 1))
      else Wakes(s, t, p, XParent(j + 1), j, s.parent[p])
    case XLock => s.plock[p] == FREE && SetsLock(s, t, p, XZombie, p)
    case XZombie => SetsState(s, t, p, XRelease, p, Zombie)
    case XRelease => Drops(s, t, p, XSched)
    case XSched => SetsLock(s, t, p, Dead, FREE)
    case _ => false
  }

  ghost predicate Wait(s: Sys, t: Sys, p: int)
    requires Sizes(s) && IsProc(s, p)
  {
    match s.pc[p]
    case Idle => Goto(s, t, p, KAcquire)
    case KAcquire => Takes(s, t, p, KScan(0, false))
    case KScan(i, kids) =>
      if !IsProc(s, i) then
        Goto(s, t, p, KReturn) || (kids && Goto(s, t, p, KLock))  // a killed process returns
      else if s.parent[i] != p then Goto(s, t, p, KScan(i + 1, kids))
      else
        && s.plock[i] == FREE
        && if s.state[i].Zombie? then
             || Goto(s, t, p, KReturn)  // copyout failed
             || (i != p && Becomes(t, s.pc[p := KReturn][i := NoProc], s.state[i := Unused],
                                   s.parent[i := NONE], s.plock, s.waitlock))
           else Goto(s, t, p, KScan(i + 1, true))
    case KLock => s.plock[p] == FREE && SetsLock(s, t, p, KRelease, p)
    case KRelease => Drops(s, t, p, KState)
    case KState => SetsState(s, t, p, KSched, p, Sleeping)
    case KSched => SetsLock(s, t, p, KAsleep, FREE)
    case KAsleep => s.state[p].Running? && s.plock[p] == FREE && Goto(s, t, p, KAcquire)
    case KReturn => Drops(s, t, p, Idle)
    case _ => false
  }

  /** kkill */
  ghost predicate Kill(s: Sys, t: Sys, p: int)
    requires Sizes(s) && IsProc(s, p)
  {
    s.plock[p] == FREE && s.state[p].Sleeping? && SetsState(s, t, p, s.pc[p], p, Running)
  }

  ghost predicate Move(s: Sys, t: Sys, p: int)
    requires Sizes(s) && IsProc(s, p)
  {
    Fork(s, t, p) || Exit(s, t, p) || Wait(s, t, p) || Kill(s, t, p)
  }

  // ---- the invariant

  predicate HoldsWait(x: Pc) {
    || x.FSet? || x.FRelease?
    || x.XOrphans? || x.XInit? || x.XParent? || x.XLock? || x.XZombie? || x.XRelease?
    || x.KScan? || x.KLock? || x.KRelease? || x.KReturn?
  }

  predicate HoldsSelf(x: Pc) {
    x.XZombie? || x.XRelease? || x.XSched? || x.KRelease? || x.KState? || x.KSched?
  }

  function StateOk(x: Pc, st: State): (b: bool) {
    match x
    case NoProc => st.Unused? || st.Used?
    case XRelease => st.Zombie?
    case XSched => st.Zombie?
    case Dead => st.Zombie?
    case KSched => st.Sleeping?
    case KAsleep => st.Sleeping? || st.Running?
    case _ => st.Running?
  }

  predicate Forking(x: Pc) {
    x.FParent? || x.FSet? || x.FRelease? || x.FRun?
  }

  predicate Local(s: Sys, p: int)
    requires Sizes(s) && IsProc(s, p)
  {
    var x := s.pc[p];
    && StateOk(x, s.state[p])
    && (HoldsWait(x) ==> s.waitlock == p)
    && s.plock[p] == (if HoldsSelf(x) then p else FREE)
    && (x.KScan? || x.XOrphans? || x.XInit? ==> x.i >= 0)
    && (x.XInit? || x.XParent? ==> x.j >= 0)
  }

  /** Parents are other processes; a slot being forked into is set aside for it. */
  predicate Family(s: Sys, p: int)
    requires Sizes(s) && IsProc(s, p)
  {
    var x := s.pc[p];
    && (Forking(x) ==> IsProc(s, x.c) && x.c != p && s.pc[x.c].NoProc? && s.state[x.c].Used?)
    && (s.parent[p] != NONE ==> IsProc(s, s.parent[p]) && s.parent[p] != p)
    && (s.state[p].Unused? ==> s.parent[p] == NONE)
    && (x.FParent? ==> s.parent[x.c] == NONE)
  }

  /** p is past the point of no return to sleep in kwait. */
  predicate Committed(s: Sys, p: int)
    requires Sizes(s) && IsProc(s, p)
  {
    s.pc[p].KState? || s.pc[p].KSched? || (s.pc[p].KAsleep? && s.state[p].Sleeping?)
  }

  predicate WaitlockOk(s: Sys)
    requires Sizes(s)
  {
    s.waitlock == FREE || (IsProc(s, s.waitlock) && HoldsWait(s.pc[s.waitlock]))
  }

  predicate ForksApart(s: Sys, p: int, q: int)
    requires Sizes(s) && IsProc(s, p) && IsProc(s, q)
  {
    p != q && Forking(s.pc[p]) && Forking(s.pc[q]) ==> s.pc[p].c != s.pc[q].c
  }

  /** A process that has given its children away, or does not exist, has none. */
  predicate KidOk(s: Sys, q: int, c: int)
    requires Sizes(s) && IsProc(s, q) && IsProc(s, c)
  {
    s.parent[c] == q ==>
      match s.pc[q]
      case XOrphans(i) => c >= i
      case XInit(i, _) => c > i
      case XParent(_) => false
      case XLock => false
      case XZombie => false
      case XRelease => false
      case XSched => false
      case Dead => false
      case NoProc => false
      case _ => true
  }

  /** The holder of wait_lock gave p, which is init, a child and has yet to wake it. */
  predicate InitPending(s: Sys, p: int)
    requires Sizes(s)
  {
    p == INIT && IsProc(s, s.waitlock) && s.pc[s.waitlock].XInit? && s.pc[s.waitlock].j <= INIT
  }

  /** p does not sleep, or go to sleep, on a zombie child c. */
  predicate ZombieOk(s: Sys, p: int, c: int)
    requires Sizes(s) && IsProc(s, p) && IsProc(s, c)
  {
    s.parent[c] == p && s.state[c].Zombie? ==>
      && (Committed(s, p) ==> InitPending(s, p))
      && (s.pc[p].KScan? ==> c >= s.pc[p].i)
      && !s.pc[p].KLock? && !s.pc[p].KRelease?
  }

  /** Past its wakeup of the parent, an exiting process has a parent that is up. */
  predicate ParentUp(s: Sys, w: int)
    requires Sizes(s) && IsProc(s, w)
  {
    var x, q := s.pc[w], s.parent[w];
    IsProc(s, q) && (x.XLock? || x.XZombie? || (x.XParent? && x.j > q)) ==> !Committed(s, q)
  }

  /** init never exits and has no parent. */
  predicate InitOk(s: Sys)
    requires Sizes(s)
  {
    !Exiting(s.pc[INIT]) && s.parent[INIT] == NONE
  }

  /** Every process but init has a parent, and so has one that kfork is about to start. */
  predicate Parented(s: Sys, p: int)
    requires Sizes(s) && IsProc(s, p)
  {
    var x := s.pc[p];
    && (p != INIT && !s.state[p].Unused? && !s.state[p].Used? ==> s.parent[p] != NONE)
    && (x.FRelease? || x.FRun? ==> IsProc(s, x.c) && s.parent[x.c] == p)
  }

  ghost predicate Inv(s: Sys) {
    && Sizes(s) && WaitlockOk(s) && InitOk(s)
    && (forall p :: IsProc(s, p) ==> Local(s, p) && Family(s, p) && ParentUp(s, p) && Parented(s, p))
    && (forall p, q :: IsProc(s, p) && IsProc(s, q) ==> ForksApart(s, p, q))
    && (forall p, q :: IsProc(s, p) && IsProc(s, q) ==> KidOk(s, p, q))
    && (forall p, q :: IsProc(s, p) && IsProc(s, q) ==> ZombieOk(s, p, q))
  }

  predicate Exiting(x: Pc) {
    || x.XAcquire? || x.XOrphans? || x.XInit? || x.XParent? || x.XLock?
    || x.XZombie? || x.XRelease? || x.XSched? || x.Dead? || x.NoProc?
  }

  lemma ForkSelf(s: Sys, t: Sys, p: int)
    requires Sizes(s) && IsProc(s, p) && Fork(s, t, p) && WaitlockOk(s) && InitOk(s)
    requires Local(s, p) && Local(s, INIT) && Family(s, p)
    ensures Sizes(t) && |t.pc| == |s.pc| && Local(t, p) && WaitlockOk(t) && InitOk(t)
  {}

  lemma ForkOther(s: Sys, t: Sys, p: int, q: int)
    requires Sizes(s) && IsProc(s, p) && IsProc(s, q) && q != p && Fork(s, t, p)
    requires Local(s, p) && Local(s, q) && Family(s, p)
    requires Sizes(t) && |t.pc| == |s.pc|
    ensures Local(t, q)
  {}

  lemma ForkFamily(s: Sys, t: Sys, p: int, q: int)
    requires Sizes(s) && IsProc(s, p) && IsProc(s, q) && Fork(s, t, p) && InitOk(s)
    requires Family(s, p) && Family(s, q) && ForksApart(s, p, q)
    requires forall c :: IsProc(s, c) ==> StateOk(s.pc[c], s.state[c]) && Family(s, c)
    requires Sizes(t) && |t.pc| == |s.pc|
    ensures Family(t, q)
  {}

  lemma ForkApart(s: Sys, t: Sys, p: int, q: int, c: int)
    requires Sizes(s) && IsProc(s, p) && IsProc(s, q) && IsProc(s, c) && Fork(s, t, p)
    requires Family(s, p) && Family(s, q) && Family(s, c) && ForksApart(s, q, c)
    requires Sizes(t) && |t.pc| == |s.pc|
    ensures ForksApart(t, q, c)
  {}

  lemma ForkKids(s: Sys, t: Sys, p: int, q: int, c: int)
    requires Sizes(s) && IsProc(s, p) && IsProc(s, q) && IsProc(s, c) && Fork(s, t, p)
    requires Local(s, p) && StateOk(s.pc[q], s.state[q]) && InitOk(s) && KidOk(s, q, c)
    requires Sizes(t) && |t.pc| == |s.pc|
    ensures KidOk(t, q, c)
  {}

  lemma ForkZombies(s: Sys, t: Sys, p: int, q: int, c: int)
    requires Sizes(s) && IsProc(s, p) && IsProc(s, q) && IsProc(s, c) && Fork(s, t, p)
    requires Local(s, p) && Family(s, p) && Local(s, q) && ZombieOk(s, q, c) && ParentUp(s, p) && InitOk(s)
    requires Sizes(t) && |t.pc| == |s.pc|
    ensures ZombieOk(t, q, c)
  {}

  lemma ForkParents(s: Sys, t: Sys, p: int, q: int)
    requires Sizes(s) && IsProc(s, p) && IsProc(s, q) && Fork(s, t, p)
    requires Local(s, p) && Local(s, q) && Family(s, p) && Family(s, q) && ParentUp(s, q)
    requires IsProc(s, s.parent[q]) ==> Local(s, s.parent[q])
    requires Sizes(t) && |t.pc| == |s.pc|
    ensures ParentUp(t, q)
  {}

  lemma ForkParented(s: Sys, t: Sys, p: int, q: int)
    requires Sizes(s) && IsProc(s, p) && IsProc(s, q) && Fork(s, t, p)
    requires Local(s, p) && Local(s, q) && Family(s, p) && Family(s, q) && Parented(s, p) && Parented(s, q)
    requires ForksApart(s, p, q) && Sizes(t) && |t.pc| == |s.pc|
    ensures Parented(t, q)
  {}

  lemma ForkInv(s: Sys, t: Sys, p: int)
    requires Inv(s) && IsProc(s, p) && Fork(s, t, p)
    ensures Inv(t)
  {
    assert Local(s, p) && Family(s, p) && Local(s, INIT) && Parented(s, p);
    ForkSelf(s, t, p);
    forall q | IsProc(s, q) ensures Local(t, q) && Family(t, q) && ParentUp(t, q) && Parented(t, q) {
      assert Local(s, q) && Family(s, q) && ParentUp(s, q) && ForksApart(s, p, q) && Parented(s, q);
      if q != p {
        ForkOther(s, t, p, q);
      }
      ForkFamily(s, t, p, q);
      ForkParents(s, t, p, q);
      ForkParented(s, t, p, q);
    }
    forall q, c | IsProc(s, q) && IsProc(s, c) ensures ForksApart(t, q, c) && KidOk(t, q, c) && ZombieOk(t, q, c) {
      assert Local(s, q) && Family(s, q) && Family(s, c) && ParentUp(s, p);
      assert ForksApart(s, q, c) && KidOk(s, q, c) && ZombieOk(s, q, c);
      ForkApart(s, t, p, q, c);
      ForkKids(s, t, p, q, c);
      ForkZombies(s, t, p, q, c);
    }
  }

  lemma ExitSelf(s: Sys, t: Sys, p: int)
    requires Sizes(s) && IsProc(s, p) && Exit(s, t, p) && WaitlockOk(s) && InitOk(s)
    requires Local(s, p) && Local(s, INIT) && Family(s, p)
    ensures Sizes(t) && |t.pc| == |s.pc| && Local(t, p) && WaitlockOk(t) && InitOk(t)
  {
    if Waking(s.pc[p]) {
      WakingSelf(s, t, p);
    } else {
      DyingSelf(s, t, p);
    }
  }

  lemma WakingSelf(s: Sys, t: Sys, p: int)
    requires Sizes(s) && IsProc(s, p) && Exit(s, t, p) && WaitlockOk(s) && InitOk(s) && Waking(s.pc[p])
    requires Local(s, p) && Local(s, INIT) && Family(s, p)
    ensures Sizes(t) && |t.pc| == |s.pc| && Local(t, p) && WaitlockOk(t) && InitOk(t)
  {}

  lemma DyingSelf(s: Sys, t: Sys, p: int)
    requires Sizes(s) && IsProc(s, p) && Exit(s, t, p) && WaitlockOk(s) && InitOk(s) && !Waking(s.pc[p])
    requires Local(s, p) && Local(s, INIT) && Family(s, p)
    ensures Sizes(t) && |t.pc| == |s.pc| && Local(t, p) && WaitlockOk(t) && InitOk(t)
  {}

  lemma ExitOther(s: Sys, t: Sys, p: int, q: int)
    requires Sizes(s) && IsProc(s, p) && IsProc(s, q) && q != p && Exit(s, t, p)
    requires Local(s, p) && Local(s, q) && Family(s, p)
    requires Sizes(t) && |t.pc| == |s.pc|
    ensures Local(t, q)
  {}

  lemma ExitFamily(s: Sys, t: Sys, p: int, q: int)
    requires Sizes(s) && IsProc(s, p) && IsProc(s, q) && Exit(s, t, p) && InitOk(s)
    requires Family(s, p) && Family(s, q) && ForksApart(s, p, q)
    requires forall c :: IsProc(s, c) ==> StateOk(s.pc[c], s.state[c]) && Family(s, c)
    requires Sizes(t) && |t.pc| == |s.pc|
    ensures Family(t, q)
  {}

  lemma ExitApart(s: Sys, t: Sys, p: int, q: int, c: int)
    requires Sizes(s) && IsProc(s, p) && IsProc(s, q) && IsProc(s, c) && Exit(s, t, p)
    requires Family(s, p) && Family(s, q) && Family(s, c) && ForksApart(s, q, c)
    requires Sizes(t) && |t.pc| == |s.pc|
    ensures ForksApart(t, q, c)
  {}

  lemma ExitKids(s: Sys, t: Sys, p: int, q: int, c: int)
    requires Sizes(s) && IsProc(s, p) && IsProc(s, q) && IsProc(s, c) && Exit(s, t, p)
    requires Local(s, p) && StateOk(s.pc[q], s.state[q]) && InitOk(s) && KidOk(s, q, c)
    requires Sizes(t) && |t.pc| == |s.pc|
    ensures KidOk(t, q, c)
  {}

  predicate Waking(x: Pc) {
    x.XOrphans? || x.XInit? || x.XParent?
  }

  lemma ExitZombies(s: Sys, t: Sys, p: int, q: int, c: int)
    requires Sizes(s) && IsProc(s, p) && IsProc(s, q) && IsProc(s, c) && Exit(s, t, p)
    requires Local(s, p) && Family(s, p) && Local(s, q) && ZombieOk(s, q, c) && ParentUp(s, p) && InitOk(s)
    requires Sizes(t) && |t.pc| == |s.pc|
    ensures ZombieOk(t, q, c)
  {
    if Waking(s.pc[p]) {
      WakingZombies(s, t, p, q, c);
    } else {
      DyingZombies(s, t, p, q, c);
    }
  }

  /** reparent and the wakeup of the parent. */
  lemma WakingZombies(s: Sys, t: Sys, p: int, q: int, c: int)
    requires Sizes(s) && IsProc(s, p) && IsProc(s, q) && IsProc(s, c) && Exit(s, t, p) && Waking(s.pc[p])
    requires Local(s, p) && Local(s, q) && ZombieOk(s, q, c) && InitOk(s)
    requires Sizes(t) && |t.pc| == |s.pc|
    ensures ZombieOk(t, q, c)
  {}

  /** Before and after, where the parent is up when p becomes a zombie. */
  lemma DyingZombies(s: Sys, t: Sys, p: int, q: int, c: int)
    requires Sizes(s) && IsProc(s, p) && IsProc(s, q) && IsProc(s, c) && Exit(s, t, p) && !Waking(s.pc[p])
    requires Local(s, p) && Family(s, p) && Local(s, q) && ZombieOk(s, q, c) && ParentUp(s, p) && InitOk(s)
    requires Sizes(t) && |t.pc| == |s.pc|
    ensures ZombieOk(t, q, c)
  {}

  lemma ExitParents(s: Sys, t: Sys, p: int, q: int)
    requires Sizes(s) && IsProc(s, p) && IsProc(s, q) && Exit(s, t, p)
    requires Local(s, p) && Local(s, q) && Family(s, p) && Family(s, q) && ParentUp(s, q)
    requires IsProc(s, s.parent[q]) ==> Local(s, s.parent[q])
    requires Sizes(t) && |t.pc| == |s.pc|
    ensures ParentUp(t, q)
  {}

  lemma ExitParented(s: Sys, t: Sys, p: int, q: int)
    requires Sizes(s) && IsProc(s, p) && IsProc(s, q) && Exit(s, t, p)
    requires Local(s, p) && Local(s, q) && Family(s, p) && Family(s, q) && Parented(s, p) && Parented(s, q)
    requires ForksApart(s, p, q) && Sizes(t) && |t.pc| == |s.pc|
    ensures Parented(t, q)
  {}

  lemma ExitInv(s: Sys, t: Sys, p: int)
    requires Inv(s) && IsProc(s, p) && Exit(s, t, p)
    ensures Inv(t)
  {
    assert Local(s, p) && Family(s, p) && Local(s, INIT) && Parented(s, p);
    ExitSelf(s, t, p);
    forall q | IsProc(s, q) ensures Local(t, q) && Family(t, q) && ParentUp(t, q) && Parented(t, q) {
      assert Local(s, q) && Family(s, q) && ParentUp(s, q) && ForksApart(s, p, q) && Parented(s, q);
      if q != p {
        ExitOther(s, t, p, q);
      }
      ExitFamily(s, t, p, q);
      ExitParents(s, t, p, q);
      ExitParented(s, t, p, q);
    }
    forall q, c | IsProc(s, q) && IsProc(s, c) ensures ForksApart(t, q, c) && KidOk(t, q, c) && ZombieOk(t, q, c) {
      assert Local(s, q) && Family(s, q) && Family(s, c) && ParentUp(s, p);
      assert ForksApart(s, q, c) && KidOk(s, q, c) && ZombieOk(s, q, c);
      ExitApart(s, t, p, q, c);
      ExitKids(s, t, p, q, c);
      ExitZombies(s, t, p, q, c);
    }
  }

  lemma WaitSelf(s: Sys, t: Sys, p: int)
    requires Sizes(s) && IsProc(s, p) && Wait(s, t, p) && WaitlockOk(s) && InitOk(s)
    requires Local(s, p) && Local(s, INIT) && Family(s, p)
    ensures Sizes(t) && |t.pc| == |s.pc| && Local(t, p) && WaitlockOk(t) && InitOk(t)
  {}

  lemma WaitOther(s: Sys, t: Sys, p: int, q: int)
    requires Sizes(s) && IsProc(s, p) && IsProc(s, q) && q != p && Wait(s, t, p)
    requires Local(s, p) && Local(s, q) && Family(s, p)
    requires Sizes(t) && |t.pc| == |s.pc|
    ensures Local(t, q)
  {}

  lemma WaitFamily(s: Sys, t: Sys, p: int, q: int)
    requires Sizes(s) && IsProc(s, p) && IsProc(s, q) && Wait(s, t, p) && InitOk(s)
    requires Family(s, p) && Family(s, q) && ForksApart(s, p, q)
    requires forall c :: IsProc(s, c) ==> StateOk(s.pc[c], s.state[c]) && Family(s, c)
    requires Sizes(t) && |t.pc| == |s.pc|
    ensures Family(t, q)
  {}

  lemma WaitApart(s: Sys, t: Sys, p: int, q: int, c: int)
    requires Sizes(s) && IsProc(s, p) && IsProc(s, q) && IsProc(s, c) && Wait(s, t, p)
    requires Family(s, p) && Family(s, q) && Family(s, c) && ForksApart(s, q, c)
    requires Sizes(t) && |t.pc| == |s.pc|
    ensures ForksApart(t, q, c)
  {}

  lemma WaitKids(s: Sys, t: Sys, p: int, q: int, c: int)
    requires Sizes(s) && IsProc(s, p) && IsProc(s, q) && IsProc(s, c) && Wait(s, t, p)
    requires Local(s, p) && StateOk(s.pc[q], s.state[q]) && InitOk(s) && KidOk(s, q, c)
    requires Sizes(t) && |t.pc| == |s.pc|
    ensures KidOk(t, q, c)
  {}

  lemma WaitZombies(s: Sys, t: Sys, p: int, q: int, c: int)
    requires Sizes(s) && IsProc(s, p) && IsProc(s, q) && IsProc(s, c) && Wait(s, t, p)
    requires Local(s, p) && Family(s, p) && Local(s, q) && ZombieOk(s, q, c) && ParentUp(s, p) && InitOk(s)
    requires Sizes(t) && |t.pc| == |s.pc|
    ensures ZombieOk(t, q, c)
  {
    if s.pc[p].KScan? {
      ScanZombies(s, t, p, q, c);
    } else {
      SleepZombies(s, t, p, q, c);
    }
  }

  lemma ScanZombies(s: Sys, t: Sys, p: int, q: int, c: int)
    requires Sizes(s) && IsProc(s, p) && IsProc(s, q) && IsProc(s, c) && Wait(s, t, p) && s.pc[p].KScan?
    requires Local(s, p) && Local(s, q) && ZombieOk(s, q, c) && InitOk(s)
    requires Sizes(t) && |t.pc| == |s.pc|
    ensures ZombieOk(t, q, c)
  {}

  lemma SleepZombies(s: Sys, t: Sys, p: int, q: int, c: int)
    requires Sizes(s) && IsProc(s, p) && IsProc(s, q) && IsProc(s, c) && Wait(s, t, p) && !s.pc[p].KScan?
    requires Local(s, p) && Local(s, q) && ZombieOk(s, q, c) && InitOk(s)
    requires Sizes(t) && |t.pc| == |s.pc|
    ensures ZombieOk(t, q, c)
  {}

  lemma WaitParents(s: Sys, t: Sys, p: int, q: int)
    requires Sizes(s) && IsProc(s, p) && IsProc(s, q) && Wait(s, t, p)
    requires Local(s, p) && Local(s, q) && Family(s, p) && Family(s, q) && ParentUp(s, q)
    requires IsProc(s, s.parent[q]) ==> Local(s, s.parent[q])
    requires Sizes(t) && |t.pc| == |s.pc|
    ensures ParentUp(t, q)
  {}

  lemma WaitParented(s: Sys, t: Sys, p: int, q: int)
    requires Sizes(s) && IsProc(s, p) && IsProc(s, q) && Wait(s, t, p)
    requires Local(s, p) && Local(s, q) && Family(s, p) && Family(s, q) && Parented(s, p) && Parented(s, q)
    requires ForksApart(s, p, q) && Sizes(t) && |t.pc| == |s.pc|
    ensures Parented(t, q)
  {}

  lemma WaitInv(s: Sys, t: Sys, p: int)
    requires Inv(s) && IsProc(s, p) && Wait(s, t, p)
    ensures Inv(t)
  {
    assert Local(s, p) && Family(s, p) && Local(s, INIT) && Parented(s, p);
    WaitSelf(s, t, p);
    forall q | IsProc(s, q) ensures Local(t, q) && Family(t, q) && ParentUp(t, q) && Parented(t, q) {
      assert Local(s, q) && Family(s, q) && ParentUp(s, q) && ForksApart(s, p, q) && Parented(s, q);
      if q != p {
        WaitOther(s, t, p, q);
      }
      WaitFamily(s, t, p, q);
      WaitParents(s, t, p, q);
      WaitParented(s, t, p, q);
    }
    forall q, c | IsProc(s, q) && IsProc(s, c) ensures ForksApart(t, q, c) && KidOk(t, q, c) && ZombieOk(t, q, c) {
      assert Local(s, q) && Family(s, q) && Family(s, c) && ParentUp(s, p);
      assert ForksApart(s, q, c) && KidOk(s, q, c) && ZombieOk(s, q, c);
      WaitApart(s, t, p, q, c);
      WaitKids(s, t, p, q, c);
      WaitZombies(s, t, p, q, c);
    }
  }

  lemma KillOne(s: Sys, t: Sys, p: int, q: int)
    requires Sizes(s) && IsProc(s, p) && IsProc(s, q) && Kill(s, t, p)
    requires Local(s, p) && Local(s, q) && Family(s, p) && Family(s, q) && ParentUp(s, q) && Parented(s, q)
    ensures Sizes(t) && |t.pc| == |s.pc| && Local(t, q) && Family(t, q) && ParentUp(t, q) && Parented(t, q)
  {}

  lemma KillTwo(s: Sys, t: Sys, p: int, q: int, c: int)
    requires Sizes(s) && IsProc(s, p) && IsProc(s, q) && IsProc(s, c) && Kill(s, t, p) && Local(s, p)
    requires ForksApart(s, q, c) && KidOk(s, q, c) && ZombieOk(s, q, c) && Sizes(t) && |t.pc| == |s.pc|
    ensures ForksApart(t, q, c) && KidOk(t, q, c) && ZombieOk(t, q, c)
  {}

  lemma KillInv(s: Sys, t: Sys, p: int)
    requires Inv(s) && IsProc(s, p) && Kill(s, t, p)
    ensures Inv(t)
  {
    assert Local(s, p) && Family(s, p);
    forall q | IsProc(s, q) ensures Local(t, q) && Family(t, q) && ParentUp(t, q) && Parented(t, q) {
      assert Local(s, q) && Family(s, q) && ParentUp(s, q) && Parented(s, q);
      KillOne(s, t, p, q);
    }
    forall q, c | IsProc(s, q) && IsProc(s, c) ensures ForksApart(t, q, c) && KidOk(t, q, c) && ZombieOk(t, q, c) {
      assert ForksApart(s, q, c) && KidOk(s, q, c) && ZombieOk(s, q, c);
      KillTwo(s, t, p, q, c);
    }
  }

  // ---- runs

  /** Only init runs at first. */
  ghost predicate Init(s: Sys) {
    && Sizes(s) && s.waitlock == FREE
    && s.pc[INIT] == Idle && s.state[INIT] == Running
    && (forall p :: IsProc(s, p) ==> s.plock[p] == FREE && s.parent[p] == NONE)
    && (forall p :: IsProc(s, p) && p != INIT ==> s.pc[p] == NoProc && s.state[p] == Unused)
  }

  ghost predicate Next(s: Sys, t: Sys) {
    Sizes(s) && exists p :: IsProc(s, p) && Move(s, t, p)
  }

  ghost predicate NextAt(r: seq<Sys>, i: int) {
    0 <= i < |r| - 1 ==> Next(r[i], r[i + 1])
  }

  ghost predicate Run(r: seq<Sys>) {
    r != [] && Init(r[0]) && forall i {:trigger NextAt(r, i)} :: NextAt(r, i)
  }

  lemma InvMove(s: Sys, t: Sys, p: int)
    requires Inv(s) && IsProc(s, p) && Move(s, t, p)
    ensures Inv(t)
  {
    if Fork(s, t, p) {
      ForkInv(s, t, p);
    } else if Exit(s, t, p) {
      ExitInv(s, t, p);
    } else if Wait(s, t, p) {
      WaitInv(s, t, p);
    } else {
      KillInv(s, t, p);
    }
  }

  lemma InvInit(s: Sys)
    requires Init(s)
    ensures Inv(s)
  {
    forall p | IsProc(s, p) ensures Local(s, p) && Family(s, p) && ParentUp(s, p) && Parented(s, p) {}
  }

  lemma RunPrefix(r: seq<Sys>)
    requires Run(r) && |r| > 1
    ensures Run(r[..|r| - 1])
  {
    var q := r[..|r| - 1];
    assert q[0] == r[0];
    forall i ensures NextAt(q, i) {
      assert NextAt(r, i);
    }
  }

  lemma RunLast(r: seq<Sys>, s: Sys, t: Sys)
    requires Run(r) && |r| > 1 && s == r[|r| - 2] && t == r[|r| - 1]
    ensures Next(s, t)
  {
    assert NextAt(r, |r| - 2);
  }

  lemma {:induction false} InvRun(r: seq<Sys>)
    requires Run(r)
    ensures Inv(r[|r| - 1])
    decreases |r|
  {
    if |r| == 1 {
      InvInit(r[0]);
    } else {
      var s, t := r[|r| - 2], r[|r| - 1];
      RunPrefix(r);
      InvRun(r[..|r| - 1]);
      RunLast(r, s, t);
      var p :| IsProc(s, p) && Move(s, t, p);
      InvMove(s, t, p);
    }
  }

  /** Whenever wait_lock is free, nobody asleep in kwait, or bound to fall
      asleep, has a zombie child; kexit's early wakeup is not lost. */
  lemma NoSleepOverZombie(r: seq<Sys>, p: int, c: int)
    requires Run(r)
    ensures var s := r[|r| - 1];
      && Sizes(s)
      && (IsProc(s, p) && IsProc(s, c) && s.waitlock == FREE && Committed(s, p) && s.parent[c] == p ==>
            !s.state[c].Zombie?)
  {
    InvRun(r);
    var s := r[|r| - 1];
    if IsProc(s, p) && IsProc(s, c) {
      assert ZombieOk(s, p, c);
    }
  }

  /** No process ever has a zombie parent: orphans have moved to init. */
  lemma NoZombieParent(r: seq<Sys>, c: int)
    requires Run(r)
    ensures var s := r[|r| - 1];
      && Sizes(s)
      && (IsProc(s, c) && s.parent[c] != NONE ==>
            IsProc(s, s.parent[c]) && !s.state[s.parent[c]].Zombie? && !s.state[s.parent[c]].Unused?)
  {
    InvRun(r);
    var s := r[|r| - 1];
    if IsProc(s, c) && s.parent[c] != NONE {
      assert Family(s, c);
      assert Local(s, s.parent[c]) && KidOk(s, s.parent[c], c);
    }
  }

  // ---- orphans

  /** In every run every process but init has a parent. */
  lemma EveryoneHasAParent(r: seq<Sys>, c: int)
    requires Run(r)
    ensures var s := r[|r| - 1];
      && Sizes(s)
      && (IsProc(s, c) && c != INIT && (s.state[c].Running? || s.state[c].Sleeping? || s.state[c].Zombie?) ==>
            IsProc(s, s.parent[c]) && s.parent[c] != c)
  {
    InvRun(r);
    var s := r[|r| - 1];
    if IsProc(s, c) {
      assert Parented(s, c) && Family(s, c);
    }
  }

  /** Exiting changes a parent only from the process that exits to init. */
  lemma OrphansMoveToInit(s: Sys, t: Sys, p: int, c: int)
    requires Sizes(s) && IsProc(s, p) && IsProc(s, c) && Exit(s, t, p)
    ensures Sizes(t) && |t.pc| == |s.pc|
    ensures t.parent[c] != s.parent[c] ==> s.parent[c] == p && t.parent[c] == INIT
  {}

  /** In kexit with wait_lock, before the state is ZOMBIE. */
  predicate Leaving(x: Pc) {
    x.XOrphans? || x.XInit? || x.XParent? || x.XLock? || x.XZombie?
  }

  /** While p is leaving, nobody else touches a parent. */
  lemma LeavingStep(s: Sys, t: Sys, q: int, p: int, c: int)
    requires Inv(s) && IsProc(s, q) && Move(s, t, q) && IsProc(s, p) && IsProc(s, c)
    requires Leaving(s.pc[p]) && (s.parent[c] == p || s.parent[c] == INIT)
    ensures Sizes(t) && |t.pc| == |s.pc| && (Leaving(t.pc[p]) || t.pc[p].XRelease?)
    ensures t.parent[c] == p || t.parent[c] == INIT
  {
    assert Local(s, p) && Local(s, q) && Family(s, q);
    if q == p {
      LeavingSelf(s, t, p, c);
    } else {
      LeavingOther(s, t, q, p, c);
    }
  }

  lemma LeavingSelf(s: Sys, t: Sys, p: int, c: int)
    requires Sizes(s) && IsProc(s, p) && Move(s, t, p) && IsProc(s, c) && Local(s, p)
    requires Leaving(s.pc[p]) && (s.parent[c] == p || s.parent[c] == INIT)
    ensures Sizes(t) && |t.pc| == |s.pc| && (Leaving(t.pc[p]) || t.pc[p].XRelease?)
    ensures t.parent[c] == p || t.parent[c] == INIT
  {}

  lemma LeavingOther(s: Sys, t: Sys, q: int, p: int, c: int)
    requires Sizes(s) && IsProc(s, q) && Move(s, t, q) && IsProc(s, p) && IsProc(s, c) && q != p
    requires Local(s, p) && Local(s, q) && Family(s, q) && Leaving(s.pc[p])
    ensures Sizes(t) && |t.pc| == |s.pc| && t.pc[p] == s.pc[p] && t.parent[c] == s.parent[c]
  {}

  lemma RunUpTo(r: seq<Sys>, k: nat)
    requires Run(r) && k < |r|
    ensures Run(r[..k + 1]) && Inv(r[k])
  {
    var q := r[..k + 1];
    forall i ensures NextAt(q, i) {
      assert NextAt(r, i);
    }
    InvRun(q);
  }

  /** p, one of n slots, is leaving or has just become a zombie, and c is its child or init's. */
  predicate OnTheWay(s: Sys, n: int, p: int, c: int) {
    && Sizes(s) && |s.pc| == n && IsProc(s, p) && IsProc(s, c) && Local(s, p)
    && (Leaving(s.pc[p]) || s.pc[p].XRelease?) && (s.parent[c] == p || s.parent[c] == INIT)
  }

  predicate IsZombie(s: Sys, p: int) {
    Sizes(s) && IsProc(s, p) && s.state[p].Zombie?
  }

  lemma LeavingAt(r: seq<Sys>, k: nat, n: int, p: int, c: int)
    requires Run(r) && k + 1 < |r| && OnTheWay(r[k], n, p, c) && !IsZombie(r[k], p)
    ensures OnTheWay(r[k + 1], n, p, c)
  {
    RunUpTo(r, k);
    RunUpTo(r, k + 1);
    var s, t := r[k], r[k + 1];
    assert NextAt(r, k);
    var q :| IsProc(s, q) && Move(s, t, q);
    LeavingStep(s, t, q, p, c);
    assert Local(t, p);
  }

  lemma {:induction false} StillLeaving(r: seq<Sys>, i: nat, k: nat, n: int, p: int, c: int)
    requires Run(r) && i <= k < |r| && OnTheWay(r[i], n, p, c)
    requires forall m :: i <= m < k ==> !IsZombie(r[m], p)
    ensures OnTheWay(r[k], n, p, c)
    decreases k
  {
    if i < k {
      StillLeaving(r, i, k - 1, n, p, c);
      LeavingAt(r, k - 1, n, p, c);
    }
  }

  /** In every run, when an exiting process becomes a zombie, every child it had
      when it took wait_lock has init as its parent. */
  lemma ChildrenGoToInit(r: seq<Sys>, i: nat, k: nat, p: int, c: int)
    requires Run(r) && i < k < |r| && Sizes(r[i]) && IsProc(r[i], p) && IsProc(r[i], c)
    requires r[i].pc[p] == XOrphans(0) && r[i].parent[c] == p
    requires IsZombie(r[k], p) && forall m :: i <= m < k ==> !IsZombie(r[m], p)
    ensures IsProc(r[k], c) && r[k].parent[c] == INIT
  {
    RunUpTo(r, i);
    assert Local(r[i], p);
    StillLeaving(r, i, k, |r[i].pc|, p, c);
    RunUpTo(r, k);
    assert KidOk(r[k], p, c);
  }

  // ---- what can happen

  function Last(r: seq<Sys>): (s: Sys)
    requires r != []
  {
    r[|r| - 1]
  }

  lemma Append(r: seq<Sys>, t: Sys, p: int) returns (r2: seq<Sys>)
    requires Run(r) && Sizes(Last(r)) && IsProc(Last(r), p) && Move(Last(r), t, p)
    ensures Run(r2) && r <= r2 && Last(r2) == t
  {
    r2 := r + [t];
    forall i ensures NextAt(r2, i) {
      assert NextAt(r, i);
    }
  }

  /** kwait at a zombie child can reap it: the slot is free again, and kwait returns. */
  lemma CanReap(r: seq<Sys>, p: int, c: int) returns (r2: seq<Sys>)
    requires Run(r) && Sizes(Last(r)) && IsProc(Last(r), p) && IsProc(Last(r), c)
    requires Last(r).pc[p].KScan? && Last(r).pc[p].i == c && Last(r).plock[c] == FREE
    requires Last(r).parent[c] == p && Last(r).state[c].Zombie?
    ensures Run(r2) && r <= r2 && Sizes(Last(r2)) && |Last(r2).pc| == |Last(r).pc|
    ensures Last(r2).state[c].Unused? && Last(r2).parent[c] == NONE && Last(r2).pc[c].NoProc? && Last(r2).pc[p].KReturn?
  {
    var s := Last(r);
    InvRun(r);
    assert Family(s, c);
    var t := Sys(s.pc[p := KReturn][c := NoProc], s.state[c := Unused], s.parent[c := NONE], s.plock, s.waitlock);
    assert Wait(s, t, p);
    r2 := Append(r, t, p);
  }

  /** Once p has wait_lock, kwait's scan goes on to a zombie child, whatever comes before it. */
  lemma {:induction false} CanScan(r: seq<Sys>, p: int, c: int, i: int, kids: bool)
    returns (r2: seq<Sys>, more: bool)
    requires Run(r) && Sizes(Last(r)) && IsProc(Last(r), p) && IsProc(Last(r), c) && 0 <= i <= c
    requires Last(r).pc[p] == KScan(i, kids) && forall q :: IsProc(Last(r), q) ==> Last(r).plock[q] == FREE
    requires forall q :: i <= q < c ==> !(Last(r).parent[q] == p && Last(r).state[q].Zombie?)
    ensures Run(r2) && r <= r2 && Last(r2) == Last(r).(pc := Last(r).pc[p := KScan(c, more)])
    decreases c - i
  {
    var s := Last(r);
    if i == c {
      r2, more := r, kids;
      assert s.pc[p := KScan(c, more)] == s.pc;
    } else {
      var t := s.(pc := s.pc[p := KScan(i + 1, kids || s.parent[i] == p)]);
      assert Wait(s, t, p);
      var r1 := Append(r, t, p);
      r2, more := CanScan(r1, p, c, i + 1, kids || s.parent[i] == p);
      assert t.pc[p := KScan(c, more)] == s.pc[p := KScan(c, more)];
    }
  }

  /** In every state of every run kfork can put a new process into a free slot, as the child of its caller. */
  lemma CanFork(r: seq<Sys>, p: int, c: int) returns (r2: seq<Sys>)
    requires Run(r) && Sizes(Last(r)) && IsProc(Last(r), p) && IsProc(Last(r), c) && p != c
    requires Last(r).pc[p].Idle? && Last(r).state[c].Unused? && Last(r).plock[c] == FREE && Last(r).waitlock == FREE
    ensures Run(r2) && r <= r2 && Sizes(Last(r2)) && |Last(r2).pc| == |Last(r).pc|
    ensures Last(r2).state == Last(r).state[c := Running] && Last(r2).parent == Last(r).parent[c := p]
    ensures Last(r2).pc == Last(r).pc[p := Idle][c := Idle] && Last(r2).waitlock == FREE
  {
    var s := Last(r);
    var s1 := s.(pc := s.pc[p := FParent(c)], state := s.state[c := Used]);
    assert SetsState(s, s1, p, FParent(c), c, Used);
    var r1 := Append(r, s1, p);
    var s2 := s1.(pc := s1.pc[p := FSet(c)], waitlock := p);
    var r3 := Append(r1, s2, p);
    var s3 := s2.(pc := s2.pc[p := FRelease(c)], parent := s2.parent[c := p]);
    var r4 := Append(r3, s3, p);
    var s4 := s3.(pc := s3.pc[p := FRun(c)], waitlock := FREE);
    var r5 := Append(r4, s4, p);
    var s5 := s4.(pc := s4.pc[p := Idle][c := Idle], state := s4.state[c := Running]);
    r2 := Append(r5, s5, p);
  }

  /** Nobody holds the lock of a process, and p is leaving. */
  ghost predicate CanGoOn(s: Sys, p: int) {
    && Sizes(s) && IsProc(s, p) && Leaving(s.pc[p]) && !s.pc[p].XZombie?
    && forall q :: IsProc(s, q) ==> s.plock[q] == FREE
  }

  /** Where the wakeup of process j on channel chan leads. */
  function Woke(s: Sys, p: int, x: Pc, j: int, chan: int): (t: Sys)
    requires Sizes(s) && IsProc(s, p) && IsProc(s, j)
  {
    if s.state[j].Sleeping? && j == chan then s.(pc := s.pc[p := x], state := s.state[j := Running])
    else s.(pc := s.pc[p := x])
  }

  /** The next state of an exiting process. */
  function ExitsOn(s: Sys, p: int): (t: Sys)
    requires Sizes(s) && IsProc(s, p) && Leaving(s.pc[p]) && !s.pc[p].XZombie?
  {
    match s.pc[p]
    case XOrphans(i) =>
      if !IsProc(s, i) then s.(pc := s.pc[p := XParent(0)])
      else if s.parent[i] == p then s.(pc := s.pc[p := XInit(i, 0)], parent := s.parent[i := INIT])
      else s.(pc := s.pc[p := XOrphans(i + 1)])
    case XInit(i, j) =>
      if !IsProc(s, j) then s.(pc := s.pc[p := XOrphans(i + 1)])
      else if j == p then s.(pc := s.pc[p := XInit(i, j + 1)])
      else Woke(s, p, XInit(i, j + 1), j, INIT)
    case XParent(j) =>
      if !IsProc(s, j) then s.(pc := s.pc[p := XLock])
      else if j == p then s.(pc := s.pc[p := XParent(j + 1)])
      else Woke(s, p, XParent(j + 1), j, s.parent[p])
    case _ => s.(pc := s.pc[p := XZombie], plock := s.plock[p := p])
  }

  lemma ExitGoesOn(s: Sys, p: int)
    requires CanGoOn(s, p)
    ensures Exit(s, ExitsOn(s, p), p) && Sizes(ExitsOn(s, p)) && |ExitsOn(s, p).pc| == |s.pc|
    ensures CanGoOn(ExitsOn(s, p), p) || ExitsOn(s, p).pc[p].XZombie?
    ensures ExitsOn(s, p).waitlock == s.waitlock
  {}

  /** How far p still is from XZombie: the part of kexit, its loop and the loop inside. */
  function Far(x: Pc, n: int): (m: (int, int, int)) {
    match x
    case XOrphans(i) => (2, if i < n then n - i else 0, n + 1)
    case XInit(i, j) => (2, if i < n then n - i else 0, if j < n then n - j else 0)
    case XParent(j) => (1, if j < n then n - j else 0, 0)
    case _ => (0, 0, 0)
  }

  predicate Nearer(a: (int, int, int), b: (int, int, int)) {
    a.0 < b.0 || (a.0 == b.0 && (a.1 < b.1 || (a.1 == b.1 && a.2 < b.2)))
  }

  lemma ExitComesNearer(s: Sys, p: int)
    requires CanGoOn(s, p) && Local(s, p)
    requires s.pc[p].XInit? ==> s.pc[p].i < |s.pc|
    ensures var t := ExitsOn(s, p);
      && |t.pc| == |s.pc| && (t.pc[p].XInit? ==> t.pc[p].i < |t.pc|)
      && (t.pc[p].XZombie? || Nearer(Far(t.pc[p], |t.pc|), Far(s.pc[p], |s.pc|)))
  {}

  /** kexit with wait_lock, when no process lock is held, can go on to the point where it becomes a zombie. */
  lemma {:induction false} CanGoToZombie(r: seq<Sys>, p: int) returns (r2: seq<Sys>)
    requires Run(r) && CanGoOn(Last(r), p) && (Last(r).pc[p].XInit? ==> Last(r).pc[p].i < |Last(r).pc|)
    ensures Run(r2) && r <= r2 && Sizes(Last(r2)) && IsProc(Last(r2), p) && Last(r2).pc[p].XZombie?
    decreases Far(Last(r).pc[p], |Last(r).pc|).0, Far(Last(r).pc[p], |Last(r).pc|).1, Far(Last(r).pc[p], |Last(r).pc|).2
  {
    var s := Last(r);
    InvRun(r);
    assert Local(s, p);
    ExitGoesOn(s, p);
    ExitComesNearer(s, p);
    var r1 := Append(r, ExitsOn(s, p), p);
    if Last(r1).pc[p].XZombie? {
      r2 := r1;
    } else {
      r2 := CanGoToZombie(r1, p);
    }
  }

  /** In every run a process but init can exit while wait_lock and the locks of the processes are free. */
  lemma CanExit(r: seq<Sys>, p: int) returns (r2: seq<Sys>)
    requires Run(r) && Sizes(Last(r)) && IsProc(Last(r), p) && p != INIT && Last(r).pc[p].Idle?
    requires Last(r).waitlock == FREE && forall q :: IsProc(Last(r), q) ==> Last(r).plock[q] == FREE
    ensures Run(r2) && r <= r2 && IsZombie(Last(r2), p) && Last(r2).pc[p].Dead? && Last(r2).waitlock == FREE
  {
    var s := Last(r);
    var s1 := s.(pc := s.pc[p := XAcquire]);
    var r1 := Append(r, s1, p);
    var r3 := Append(r1, s1.(pc := s1.pc[p := XOrphans(0)], waitlock := p), p);
    var r4 := CanGoToZombie(r3, p);
    r2 := Dying(r4, p);
  }

  lemma Dying(r: seq<Sys>, p: int) returns (r2: seq<Sys>)
    requires Run(r) && Sizes(Last(r)) && IsProc(Last(r), p) && Last(r).pc[p].XZombie?
    ensures Run(r2) && r <= r2 && IsZombie(Last(r2), p) && Last(r2).pc[p].Dead? && Last(r2).waitlock == FREE
  {
    var s := Last(r);
    var s1 := s.(pc := s.pc[p := XRelease], state := s.state[p := Zombie]);
    var r1 := Append(r, s1, p);
    var s2 := s1.(pc := s1.pc[p := XSched], waitlock := FREE);
    var r3 := Append(r1, s2, p);
    r2 := Append(r3, s2.(pc := s2.pc[p := Dead], plock := s2.plock[p := FREE]), p);
  }
}
