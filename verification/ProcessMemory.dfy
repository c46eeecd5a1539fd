/** The user memory of a process (kernel/proc.c, kernel/sysproc.c, vmfault of
    kernel/vm.c): its page table is built with the trampoline and the trapframe,
    which it maps and does not own, is grown, shrunk and copied, and freed. */
module ProcessMemory {
  import opened PageTable
  import opened PageTree
  import opened PageRuns
  import opened VirtualMemory

  const TRAMPOLINE := VPNS - 1
  const TRAPFRAME := VPNS - 2
  const MAXSZ := TRAPFRAME * PGSIZE
  const PTE_W := 4
  const RW := 6          // PTE_R | PTE_W
  const RX := 10         // PTE_R | PTE_X
  const RWU := 22        // PTE_W | PTE_U | PTE_R
  const WRAP := 0x1_0000_0000_0000_0000

  /** Page v of root is mapped to p, which the entry does not own. */
  ghost predicate Lent(m: Mem, a: Account, root: int, v: int, p: int, perm: int)
    requires Shape(m) && 0 <= v < VPNS
  {
    0 <= p && 0 <= perm < 1024 && Lookup(m, root, v) == Entry(p, perm) && !Owned(m, a, root, v)
  }

  /** The page table of a process of sz bytes with trapframe tf. */
  ghost predicate Image(m: Mem, a: Account, root: int, sz: int, tf: int, tramp: int)
    requires Shape(m)
  {
    && IsRoot(a, root) && 0 <= sz <= MAXSZ
    && Backed(m, a, root, 0, Up(sz)) && Unmapped(m, root, Up(sz), TRAPFRAME)
    && Lent(m, a, root, TRAPFRAME, tf, RW) && Lent(m, a, root, TRAMPOLINE, tramp, RX)
  }

  /** Not a page, a translation or the contents of a page differs. */
  ghost predicate Same(m: Mem, a: Account, n: Mem, b: Account) {
    && Alike(m, n) && b == a && Retains(m, n, User(a))
    && (forall r, u {:trigger Sees(m, a, n, b, r, u)} {:trigger Lookup(n, r, u)} ::
          IsRoot(a, r) && 0 <= u < VPNS ==> Sees(m, a, n, b, r, u))
  }

  /** root and tf are new; what there was before is as it was. */
  ghost predicate Born(m: Mem, a: Account, n: Mem, b: Account, root: int, tf: int) {
    && Alike(m, n) && root !in a && tf !in a && root != tf
    && Outside(b, root) == a[tf := Place(LOOSE, 0, 0)] && Retains(m, n, User(a))
    && (forall r, u {:trigger Sees(m, a, n, b, r, u)} {:trigger Lookup(n, r, u)} ::
          IsRoot(a, r) && 0 <= u < VPNS ==> Sees(m, a, n, b, r, u))
  }

  /** At most page v of root is seen differently. */
  ghost predicate SeesBut(m: Mem, a: Account, n: Mem, b: Account, root: int, v: int)
    requires Shape(m) && Shape(n)
  {
    forall u {:trigger Sees(m, a, n, b, root, u)} {:trigger Lookup(n, root, u)} ::
      0 <= u < VPNS && u != v ==> Sees(m, a, n, b, root, u)
  }

  // ---- steps on values

  lemma CreatedApart(m: Mem, a: Account, n: Mem, b: Account, root: int)
    requires Own(m, a) && Shape(n) && n.base == m.base && |n.pages| == |m.pages| && Managed(m, root)
    requires root !in a && b == a[root := Place(2, 0, 0)] && n.pages == m.pages[root := n.pages[root]]
    ensures Apart(m, a, n, b, root)
  {
    RootOutside(m, a, root);
    NoTree(a, root);
    forall q, i | IsEntry(m, a, q, i) ensures Word(n, q, i) == Word(m, q, i) {}
    forall r, u | IsRoot(a, r) && r != root && 0 <= u < VPNS ensures Sees(m, a, n, b, r, u) {
      SameLookup(m, n, a, r, u);
    }
  }

  /** A tree that was built and freed. */
  lemma ApartGone(m: Mem, a: Account, n: Mem, b: Account, root: int)
    requires Apart(m, a, n, b, root) && root !in a && root !in b
    ensures Same(m, a, n, b)
  {
    NoTree(a, root);
    NoTree(b, root);
    forall r, u | IsRoot(a, r) && 0 <= u < VPNS ensures Sees(m, a, n, b, r, u) {}
  }

  /** mappages found no memory. */
  lemma LendFails(m: Mem, a: Account, n: Mem, b: Account, root: int, v: int, p: int, perm: int)
    requires Shape(m) && Shape(n) && 0 <= p && 0 <= perm < 1024 && IsRoot(a, root)
    requires Mapping(m, a, n, b, root, v, 0, p, perm, false)
    ensures Apart(m, a, n, b, root) && IsRoot(b, root)
    ensures SeesBut(m, a, n, b, root, -1)
  {
    RemapApart(m, a, n, b, root, v, v);
    assert IsRoot(b, root);
    forall u | 0 <= u < VPNS ensures Sees(m, a, n, b, root, u) {}
  }

  lemma LendWorks(m: Mem, a: Account, n: Mem, b: Account, root: int, v: int, p: int, perm: int)
    requires Shape(m) && Shape(n) && 0 <= v < VPNS && 0 <= p && 0 <= perm < 1024 && IsRoot(a, root)
    requires Mapping(m, a, n, b, root, v, 1, p, perm, false)
    ensures Apart(m, a, n, b, root) && IsRoot(b, root) && Lent(n, b, root, v, p, perm)
    ensures SeesBut(m, a, n, b, root, v)
  {
    RemapApart(m, a, n, b, root, v, v + 1);
    assert IsRoot(b, root) && MappedAt(n, b, root, v, v, p, perm, false);
    forall u | 0 <= u < VPNS && u != v ensures Sees(m, a, n, b, root, u) {}
  }

  /** A page that is lent is unmapped. */
  lemma TakenBack(m: Mem, a: Account, n: Mem, b: Account, root: int, v: int, p: int, perm: int)
    requires Shape(m) && Shape(n) && 0 <= v < VPNS && IsRoot(a, root) && Lent(m, a, root, v, p, perm)
    requires Unmapping(m, a, n, b, root, v, v + 1, false)
    ensures b == a && Apart(m, a, n, b, root) && Lookup(n, root, v) == 0
    ensures SeesBut(m, a, n, b, root, v)
  {
    assert Targets(m, a, root, v, v) == {};
    assert Targets(m, a, root, v, v + 1) == {};
    assert Drop(a, {}, false) == a;
    RemapApart(m, a, n, b, root, v, v + 1);
    forall u | 0 <= u < VPNS && u != v ensures Sees(m, a, n, b, root, u) {}
  }

  lemma LentSeen(m: Mem, a: Account, n: Mem, b: Account, root: int, v: int, p: int, perm: int)
    requires Shape(m) && Shape(n) && 0 <= v < VPNS && Lent(m, a, root, v, p, perm) && Sees(m, a, n, b, root, v)
    ensures Lent(n, b, root, v, p, perm)
  {}

  lemma UnmappedSeen(m: Mem, a: Account, n: Mem, b: Account, root: int, lo: int, hi: int, v: int)
    requires Shape(m) && Shape(n) && Unmapped(m, root, lo, hi)
    requires SeesBut(m, a, n, b, root, v) && !(lo <= v < hi)
    ensures Unmapped(n, root, lo, hi)
  {
    forall u | lo <= u < hi && 0 <= u < VPNS ensures Lookup(n, root, u) == 0 {
      assert Sees(m, a, n, b, root, u);
      assert Lookup(m, root, u) == 0;
    }
  }

  lemma BackedSeen(m: Mem, a: Account, n: Mem, b: Account, root: int, lo: int, hi: int, v: int)
    requires Shape(m) && Shape(n) && Backed(m, a, root, lo, hi)
    requires SeesBut(m, a, n, b, root, v) && !(lo <= v < hi)
    ensures Backed(n, b, root, lo, hi)
  {
    forall u | lo <= u < hi && 0 <= u < VPNS ensures Lookup(n, root, u) == 0 || Owned(n, b, root, u) {
      assert Sees(m, a, n, b, root, u);
      assert Lookup(m, root, u) == 0 || Owned(m, a, root, u);
    }
  }

  /** A step that changes at most the pages lo .. hi - 1 of this table keeps it an image. */
  lemma ImageKept(m: Mem, a: Account, n: Mem, b: Account, root: int,
                  sz: int, newsz: int, tf: int, tramp: int, lo: int, hi: int)
    requires Shape(m) && Image(m, a, root, sz, tf, tramp) && Remap(m, a, n, b, root, lo, hi)
    requires 0 <= newsz <= MAXSZ && 0 <= lo <= hi <= TRAPFRAME && Backed(n, b, root, lo, hi)
    requires Up(sz) <= Up(newsz) || (lo <= Up(newsz) && Up(sz) <= hi)
    requires hi <= Up(newsz) || Unmapped(n, root, Up(newsz), hi)
    ensures Image(n, b, root, newsz, tf, tramp)
  {
    assert IsRoot(b, root);
    forall u | 0 <= u < VPNS && !(lo <= u < hi) ensures Sees(m, a, n, b, root, u) {}
    LentSeen(m, a, n, b, root, TRAPFRAME, tf, RW);
    LentSeen(m, a, n, b, root, TRAMPOLINE, tramp, RX);
    forall u | 0 <= u < Up(newsz) ensures Lookup(n, root, u) == 0 || Owned(n, b, root, u) {
      if !(lo <= u < hi) {
        assert Sees(m, a, n, b, root, u);
        assert Lookup(m, root, u) == 0 || Owned(m, a, root, u);
      }
    }
    forall u | Up(newsz) <= u < TRAPFRAME ensures Lookup(n, root, u) == 0 {
      if !(lo <= u < hi) {
        assert Sees(m, a, n, b, root, u);
      }
    }
  }

  lemma ImageSeen(m: Mem, a: Account, n: Mem, b: Account, root: int, sz: int, tf: int, tramp: int)
    requires Shape(m) && Shape(n) && Image(m, a, root, sz, tf, tramp) && IsRoot(b, root)
    requires SeesBut(m, a, n, b, root, -1)
    ensures Image(n, b, root, sz, tf, tramp)
  {
    LentSeen(m, a, n, b, root, TRAPFRAME, tf, RW);
    LentSeen(m, a, n, b, root, TRAMPOLINE, tramp, RX);
    BackedSeen(m, a, n, b, root, 0, Up(sz), -1);
    UnmappedSeen(m, a, n, b, root, Up(sz), TRAPFRAME, -1);
  }

  // ---- proc_pagetable and proc_freepagetable

  /** The root of a page table with only the trampoline and the trapframe; 0 if memory is out,
      and then every page taken is free again. */
  method ProcPagetable(mem: Memory, tf: int, tramp: int) returns (root: int)
    requires mem.Valid() && 0 <= tf && 0 <= tramp
    modifies mem, mem.pages
    ensures mem.Valid()
    ensures root == 0 ==> Same(old(mem.Snapshot()), old(mem.owner), mem.Snapshot(), mem.owner)
    ensures if root == 0 then |old(mem.free)| < 5 else |mem.free| >= |old(mem.free)| - 5
    ensures root != 0 ==> root !in old(mem.owner) && Managed(mem.Snapshot(), root)
    ensures root != 0 ==> Image(mem.Snapshot(), mem.owner, root, 0, tf, tramp)
    ensures root != 0 ==> Apart(old(mem.Snapshot()), old(mem.owner), mem.Snapshot(), mem.owner, root)
  {
    ghost var m, a := mem.Snapshot(), mem.owner;
    root := mem.Uvmcreate();
    if root == 0 {
      return;
    }
    CreatedApart(m, a, mem.Snapshot(), mem.owner, root);
    ghost var m0, a0 := mem.Snapshot(), mem.owner;
    var r := LendOne(mem, root, TRAMPOLINE, tramp, RX, m, a);
    ghost var n, b := mem.Snapshot(), mem.owner;
    UnmappedSeen(m0, a0, n, b, root, 0, TRAMPOLINE, TRAMPOLINE);
    if r == -1 {
      Abandon(mem, root, m, a);
      return 0;
    }
    r := LendOne(mem, root, TRAPFRAME, tf, RW, m, a);
    ghost var o, c := mem.Snapshot(), mem.owner;
    LentSeen(n, b, o, c, root, TRAMPOLINE, tramp, RX);
    UnmappedSeen(n, b, o, c, root, 0, TRAPFRAME, TRAPFRAME);
    if r == -1 {
      TakeBack(mem, root, TRAMPOLINE, tramp, RX, m, a);
      UnmappedSeen(o, c, mem.Snapshot(), mem.owner, root, 0, TRAMPOLINE, TRAMPOLINE);
      Abandon(mem, root, m, a);
      return 0;
    }
  }

  /** mappages of one page that stays with its owner. */
  method LendOne(mem: Memory, root: int, v: int, p: int, perm: int, ghost m: Mem, ghost a: Account) returns (r: int)
    requires mem.Valid() && IsRoot(mem.owner, root) && 0 <= v < VPNS && 0 <= p && 0 <= perm < 1024 && Leaf(perm)
    requires Lookup(mem.Snapshot(), root, v) == 0 && Apart(m, a, mem.Snapshot(), mem.owner, root)
    modifies mem, mem.pages
    ensures mem.Valid() && IsRoot(mem.owner, root) && Apart(m, a, mem.Snapshot(), mem.owner, root)
    ensures || (r == 0 && Lent(mem.Snapshot(), mem.owner, root, v, p, perm))
            || (r == -1 && Lookup(mem.Snapshot(), root, v) == 0)
    ensures if r == 0 then |mem.free| >= |old(mem.free)| - 2 else |old(mem.free)| < 2
    ensures SeesBut(old(mem.Snapshot()), old(mem.owner), mem.Snapshot(), mem.owner, root, v)
  {
    ghost var n, b := mem.Snapshot(), mem.owner;
    ghost var done;
    r, done := mem.Mappages(root, v, 1, p, perm, false);
    if r == 0 {
      LendWorks(n, b, mem.Snapshot(), mem.owner, root, v, p, perm);
    } else {
      LendFails(n, b, mem.Snapshot(), mem.owner, root, v, p, perm);
      assert Sees(n, b, mem.Snapshot(), mem.owner, root, v);
    }
    ApartTrans(m, a, n, b, mem.Snapshot(), mem.owner, root);
  }

  /** uvmunmap of one page that the table does not own. */
  method TakeBack(mem: Memory, root: int, v: int, ghost p: int, ghost perm: int, ghost m: Mem, ghost a: Account)
    requires mem.Valid() && IsRoot(mem.owner, root) && 0 <= v < VPNS
    requires Lent(mem.Snapshot(), mem.owner, root, v, p, perm)
    requires Apart(m, a, mem.Snapshot(), mem.owner, root)
    modifies mem, mem.pages
    ensures mem.Valid() && mem.owner == old(mem.owner) && Apart(m, a, mem.Snapshot(), mem.owner, root)
    ensures Lookup(mem.Snapshot(), root, v) == 0
    ensures SeesBut(old(mem.Snapshot()), old(mem.owner), mem.Snapshot(), mem.owner, root, v)
  {
    ghost var n, b := mem.Snapshot(), mem.owner;
    mem.Uvmunmap(root, v, 1, false);
    TakenBack(n, b, mem.Snapshot(), mem.owner, root, v, p, perm);
    ApartTrans(m, a, n, b, mem.Snapshot(), mem.owner, root);
  }

  /** uvmfree of a table that is new since m and maps nothing. */
  method Abandon(mem: Memory, root: int, ghost m: Mem, ghost a: Account)
    requires mem.Valid() && IsRoot(mem.owner, root) && Unmapped(mem.Snapshot(), root, 0, VPNS) && root !in a
    requires Apart(m, a, mem.Snapshot(), mem.owner, root)
    modifies mem, mem.pages
    ensures mem.Valid() && Same(m, a, mem.Snapshot(), mem.owner)
  {
    ghost var n, b := mem.Snapshot(), mem.owner;
    var _ := mem.Uvmfree(root, 0);
    ApartTrans(m, a, n, b, mem.Snapshot(), mem.owner, root);
    ApartGone(m, a, mem.Snapshot(), mem.owner, root);
  }

  /** proc_freepagetable: every page of the table is free again, the trapframe and the
      trampoline are left alone, and so is all else; freewalk's panic is not reached. */
  method ProcFreepagetable(mem: Memory, root: int, sz: int, ghost tf: int, ghost tramp: int) returns (ok: bool)
    requires mem.Valid() && Image(mem.Snapshot(), mem.owner, root, sz, tf, tramp)
    modifies mem, mem.pages
    ensures ok && mem.Valid() && mem.owner == Outside(old(mem.owner), root)
    ensures Apart(old(mem.Snapshot()), old(mem.owner), mem.Snapshot(), mem.owner, root)
  {
    ghost var m, a := mem.Snapshot(), mem.owner;
    RemapApart(m, a, m, a, root, 0, 0);
    TakeBack(mem, root, TRAMPOLINE, tramp, RX, m, a);
    ghost var n, b := mem.Snapshot(), mem.owner;
    LentSeen(m, a, n, b, root, TRAPFRAME, tf, RW);
    TakeBack(mem, root, TRAPFRAME, tf, RW, m, a);
    ghost var o, c := mem.Snapshot(), mem.owner;
    LeftOver(m, a, n, b, o, c, root, sz, tf, tramp);
    ok := mem.Uvmfree(root, sz);
    ApartTrans(m, a, o, c, mem.Snapshot(), mem.owner, root);
  }

  /** What is left of an image without the trampoline and the trapframe. */
  lemma LeftOver(m: Mem, a: Account, n: Mem, b: Account, o: Mem, c: Account, root: int, sz: int, tf: int, tramp: int)
    requires Shape(m) && Shape(n) && Shape(o) && Image(m, a, root, sz, tf, tramp)
    requires Lookup(n, root, TRAMPOLINE) == 0 && Lookup(o, root, TRAPFRAME) == 0
    requires SeesBut(m, a, n, b, root, TRAMPOLINE) && SeesBut(n, b, o, c, root, TRAPFRAME)
    ensures Backed(o, c, root, 0, Up(sz)) && Unmapped(o, root, Up(sz), VPNS)
  {
    BackedSeen(m, a, n, b, root, 0, Up(sz), TRAMPOLINE);
    BackedSeen(n, b, o, c, root, 0, Up(sz), TRAPFRAME);
    UnmappedSeen(m, a, n, b, root, Up(sz), TRAPFRAME, TRAMPOLINE);
    UnmappedSeen(n, b, o, c, root, Up(sz), TRAPFRAME, TRAPFRAME);
    assert Sees(n, b, o, c, root, TRAMPOLINE);
  }

  // ---- freeproc

  /** Born in reverse: tf and root's tree are gone, the rest is as it was. */
  ghost predicate Died(m: Mem, a: Account, n: Mem, b: Account, root: int, tf: int) {
    && Alike(m, n) && b == Outside(a, root) - {tf} && Retains(m, n, User(b))
    && (forall r, u {:trigger Sees(m, a, n, b, r, u)} {:trigger Lookup(n, r, u)} ::
          IsRoot(a, r) && r != root && 0 <= u < VPNS ==> Sees(m, a, n, b, r, u))
  }

  /** freeproc: the trapframe is freed while the page table still maps it, then the page table. */
  method Freeproc(mem: Memory, root: int, sz: int, tf: int, ghost tramp: int) returns (ok: bool)
    requires mem.Valid() && Image(mem.Snapshot(), mem.owner, root, sz, tf, tramp)
    requires tf in mem.owner && mem.owner[tf].level == LOOSE
    modifies mem, mem.pages
    ensures ok && mem.Valid() && Died(old(mem.Snapshot()), old(mem.owner), mem.Snapshot(), mem.owner, root, tf)
  {
    ghost var m, a := mem.Snapshot(), mem.owner;
    mem.KfreeLoose(tf);
    ghost var n, b := mem.Snapshot(), mem.owner;
    FreedSees(m, a, n, b, root, tf);
    ImageKept(m, a, n, b, root, sz, sz, tf, tramp, 0, 0);
    ok := ProcFreepagetable(mem, root, sz, tf, tramp);
    DiedSees(m, a, n, b, mem.Snapshot(), mem.owner, root, tf);
  }

  lemma DiedSees(m: Mem, a: Account, n: Mem, b: Account, o: Mem, c: Account, root: int, tf: int)
    requires Remap(m, a, n, b, root, 0, 0) && Outside(b, root) == Outside(a, root) - {tf}
    requires m.base <= tf < |m.pages| && n.pages == m.pages[tf := n.pages[tf]] && tf in a && a[tf].level == LOOSE
    requires Apart(n, b, o, c, root) && c == Outside(b, root)
    ensures Died(m, a, o, c, root, tf)
  {
    forall x | 0 <= x < |m.pages| && (x in User(c) || x < m.base) ensures o.pages[x] == m.pages[x] {
      assert x in User(c) ==> x in User(Outside(b, root));
      assert x in User(c) ==> x != tf;
    }
    forall r, u | IsRoot(a, r) && r != root && 0 <= u < VPNS ensures Sees(m, a, o, c, r, u) {
      assert IsRoot(b, r) && Sees(m, a, n, b, r, u) && Sees(n, b, o, c, r, u);
    }
  }

  // ---- growproc, sys_sbrk and vmfault

  /** A step of growproc: the size goes from sz to now, and only the pages between differ. */
  ghost predicate Resized(m: Mem, a: Account, n: Mem, b: Account, root: int, sz: int, now: int, tf: int, tramp: int)
    requires Shape(m) && Shape(n)
  {
    && Image(n, b, root, now, tf, tramp) && Apart(m, a, n, b, root)
    && Remap(m, a, n, b, root, Up(if sz <= now then sz else now), Up(if sz <= now then now else sz))
  }

  lemma Grown(m: Mem, a: Account, n: Mem, b: Account, root: int, sz: int, now: int, tf: int, tramp: int)
    requires Shape(m) && Shape(n) && Image(m, a, root, sz, tf, tramp) && sz <= now <= MAXSZ
    requires Growing(m, a, n, b, root, Up(sz), Up(now))
    ensures Resized(m, a, n, b, root, sz, now, tf, tramp)
  {
    RemapApart(m, a, n, b, root, Up(sz), Up(now));
    ImageKept(m, a, n, b, root, sz, now, tf, tramp, Up(sz), Up(now));
  }

  lemma Shrunk(m: Mem, a: Account, n: Mem, b: Account, root: int, sz: int, now: int, tf: int, tramp: int)
    requires Own(m, a) && Shape(n) && Image(m, a, root, sz, tf, tramp) && 0 <= now <= sz
    requires Unmapping(m, a, n, b, root, Up(now), Up(sz), true)
    ensures Resized(m, a, n, b, root, sz, now, tf, tramp)
  {
    UnmappingApart(m, a, n, b, root, Up(now), Up(sz));
    ImageKept(m, a, n, b, root, sz, now, tf, tramp, Up(now), Up(sz));
  }

  lemma NotGrown(m: Mem, a: Account, n: Mem, b: Account, root: int, sz: int, tf: int, tramp: int)
    requires Shape(m) && Shape(n) && Image(m, a, root, sz, tf, tramp) && NothingNew(m, a, n, b, root)
    ensures Resized(m, a, n, b, root, sz, sz, tf, tramp)
  {
    RemapApart(m, a, n, b, root, 0, 0);
    ImageKept(m, a, n, b, root, sz, sz, tf, tramp, 0, 0);
    RemapMore(m, a, n, b, root, Up(sz), Up(sz));
  }

  predicate Int32(n: int) {
    -0x8000_0000 <= n < 0x8000_0000
  }

  /** sz + n in 64 bits, for a shrinking process. */
  function Less(sz: int, n: int): (to: int)
    requires 0 <= sz <= MAXSZ && -0x8000_0000 <= n < 0
    ensures 0 <= to && (if 0 <= sz + n then to == sz + n else to >= sz)
  {
    if sz + n < 0 then sz + n + WRAP else sz + n
  }

  /** growproc by n bytes: r is its result and now the new size; where it fails, users see no change.
      Size and n are added in 64 bits, so that more than all is not taken away. */
  method Growproc(mem: Memory, root: int, sz: int, n: int, ghost tf: int, ghost tramp: int) returns (r: int, now: int)
    requires mem.Valid() && Image(mem.Snapshot(), mem.owner, root, sz, tf, tramp) && Int32(n) && sz + n <= MAXSZ
    modifies mem, mem.pages
    ensures mem.Valid()
    ensures Resized(old(mem.Snapshot()), old(mem.owner), mem.Snapshot(), mem.owner, root, sz, now, tf, tramp)
    ensures (r == 0 && now == if 0 <= sz + n then sz + n else sz) || (r == -1 && now == sz && n > 0)
    ensures r == -1 ==> NothingNew(old(mem.Snapshot()), old(mem.owner), mem.Snapshot(), mem.owner, root)
    ensures r == -1 ==> |old(mem.free)| < 3 * (Up(sz + n) - Up(sz))
    ensures r == 0 && n > 0 ==> ZeroRun(mem.Snapshot(), root, Up(sz), Up(sz + n), OrRU(PTE_W))
    ensures r == 0 && n <= 0 ==>
      mem.owner == old(mem.owner) - Targets(old(mem.Snapshot()), old(mem.owner), root, Up(now), Up(sz))
  {
    ghost var m, a := mem.Snapshot(), mem.owner;
    if n > 0 {
      var grown := mem.Uvmalloc(root, sz, sz + n, PTE_W);
      if grown == 0 {
        NotGrown(m, a, mem.Snapshot(), mem.owner, root, sz, tf, tramp);
        return -1, sz;
      }
      Grown(m, a, mem.Snapshot(), mem.owner, root, sz, grown, tf, tramp);
      return 0, grown;
    }
    now := sz;
    UnmappingNone(m, a, root, Up(sz), true);
    if n < 0 {
      now := mem.Uvmdealloc(root, sz, Less(sz, n));
    }
    Shrunk(m, a, mem.Snapshot(), mem.owner, root, sz, now, tf, tramp);
    return 0, now;
  }

  /** sys_sbrk: eager growth and shrinking at once, lazy growth by vmfault later. */
  method Sbrk(mem: Memory, root: int, sz: int, n: int, eager: bool, ghost tf: int, ghost tramp: int)
    returns (r: int, now: int)
    requires mem.Valid() && Image(mem.Snapshot(), mem.owner, root, sz, tf, tramp) && Int32(n) && sz + n <= MAXSZ
    modifies mem, mem.pages
    ensures mem.Valid() && Image(mem.Snapshot(), mem.owner, root, now, tf, tramp)
    ensures Apart(old(mem.Snapshot()), old(mem.owner), mem.Snapshot(), mem.owner, root)
    ensures (r == sz && now == if 0 <= sz + n then sz + n else sz) || (r == -1 && now == sz && eager && n > 0)
    ensures r == -1 ==> |old(mem.free)| < 3 * (Up(sz + n) - Up(sz))
    ensures !eager && 0 <= n ==> mem.Snapshot() == old(mem.Snapshot()) && mem.owner == old(mem.owner)
  {
    if eager || n < 0 {
      r, now := Growproc(mem, root, sz, n, tf, tramp);
      r := if r == 0 then sz else -1;
      return;
    }
    ghost var m, a := mem.Snapshot(), mem.owner;
    RemapApart(m, a, m, a, root, 0, 0);
    ImageKept(m, a, m, a, root, sz, sz + n, tf, tramp, 0, 0);
    return sz, sz + n;
  }

  /** vmfault at address va: a zeroed page if the process may use it and has none, else 0. */
  method Vmfault(mem: Memory, root: int, sz: int, va: int, ghost tf: int, ghost tramp: int)
    returns (p: int, ghost z: Page)
    requires mem.Valid() && Image(mem.Snapshot(), mem.owner, root, sz, tf, tramp) && 0 <= va
    modifies mem, mem.pages
    ensures mem.Valid() && Image(mem.Snapshot(), mem.owner, root, sz, tf, tramp)
    ensures Apart(old(mem.Snapshot()), old(mem.owner), mem.Snapshot(), mem.owner, root)
    ensures p != 0 ==> va < sz && old(Lookup(mem.Snapshot(), root, va / PGSIZE)) == 0
    ensures p != 0 ==> ZeroPage(z)
    ensures p != 0 ==> GrowsOne(old(mem.Snapshot()), old(mem.owner), mem.Snapshot(), mem.owner,
                                root, va / PGSIZE, p, RWU, z)
    ensures p == 0 ==> NothingNew(old(mem.Snapshot()), old(mem.owner), mem.Snapshot(), mem.owner, root)
    ensures p == 0 ==> va >= sz || old(Lookup(mem.Snapshot(), root, va / PGSIZE)) != 0 || |old(mem.free)| < 3
  {
    ghost var m, a := mem.Snapshot(), mem.owner;
    RemapApart(m, a, m, a, root, 0, 0);
    z := Page([]);
    if va >= sz {
      return 0, z;
    }
    var u := va / PGSIZE;
    InReach(va, sz, u);
    var yes := mem.IsMapped(root, u);
    if yes {
      return 0, z;
    }
    p, z := mem.GrowOne(root, u, RWU);
    FaultSeen(m, a, mem.Snapshot(), mem.owner, root, sz, tf, tramp, u, p, z);
  }

  lemma InReach(va: int, sz: int, u: int)
    requires 0 <= va < sz <= MAXSZ && u == va / PGSIZE
    ensures 0 <= u < Up(sz) <= TRAPFRAME
  {}

  lemma FaultSeen(m: Mem, a: Account, n: Mem, b: Account, root: int, sz: int, tf: int, tramp: int, u: int, p: int,
                  z: Page)
    requires Shape(m) && Shape(n) && Image(m, a, root, sz, tf, tramp) && 0 <= u < Up(sz) <= TRAPFRAME
    requires GrowsOne(m, a, n, b, root, u, p, RWU, z) && Lookup(m, root, u) == 0
    ensures Image(n, b, root, sz, tf, tramp) && Apart(m, a, n, b, root)
    ensures p == 0 ==> NothingNew(m, a, n, b, root)
  {
    if p == 0 {
      RemapApart(m, a, n, b, root, u, u);
      ImageKept(m, a, n, b, root, sz, sz, tf, tramp, u, u);
      forall r, x | IsRoot(a, r) && 0 <= x < VPNS ensures Sees(m, a, n, b, r, x) {}
    } else {
      RemapApart(m, a, n, b, root, u, u + 1);
      ImageKept(m, a, n, b, root, sz, sz, tf, tramp, u, u + 1);
    }
  }

  // ---- kfork

  lemma ImageReadable(m: Mem, a: Account, root: int, sz: int, tf: int, tramp: int)
    requires Own(m, a) && Image(m, a, root, sz, tf, tramp)
    ensures AllReadable(m, a, root, Up(sz))
  {
    forall u | 0 <= u < Up(sz) && u < VPNS && Lookup(m, root, u) != 0 ensures Readable(m, a, Lookup(m, root, u)) {
      OwnedPage(m, a, root, u);
    }
  }

  /** A trapframe was allocated, then a page table built. */
  lemma BornSees(m: Mem, a: Account, n: Mem, b: Account, o: Mem, c: Account, root: int, tf: int, src: int)
    requires Own(m, a) && IsRoot(a, src) && New(m, a, n, b, src, tf) && b == a[tf := Place(LOOSE, 0, 0)]
    requires Apart(n, b, o, c, root) && root !in b
    ensures Born(m, a, o, c, root, tf)
  {
    NoTree(b, root);
    forall r, u | IsRoot(a, r) && 0 <= u < VPNS ensures Sees(m, a, o, c, r, u) {
      assert IsRoot(b, r) && Sees(m, a, n, b, r, u) && Sees(n, b, o, c, r, u);
    }
    assert User(a) <= User(b);
  }

  lemma BornApart(m: Mem, a: Account, n: Mem, b: Account, o: Mem, c: Account, root: int, tf: int)
    requires Born(m, a, n, b, root, tf) && Apart(n, b, o, c, root)
    ensures Born(m, a, o, c, root, tf)
  {
    forall r, u | IsRoot(a, r) && 0 <= u < VPNS ensures Sees(m, a, o, c, r, u) {
      BornRoot(m, a, n, b, root, tf, r);
      assert Sees(m, a, n, b, r, u) && Sees(n, b, o, c, r, u);
    }
    assert User(a) <= User(Outside(b, root));
  }

  lemma BornRoot(m: Mem, a: Account, n: Mem, b: Account, root: int, tf: int, r: int)
    requires Born(m, a, n, b, root, tf) && IsRoot(a, r)
    ensures IsRoot(b, r) && r != root
  {
    assert r in Outside(b, root) && Outside(b, root)[r] == b[r];
  }

  lemma BornLoose(m: Mem, a: Account, n: Mem, b: Account, root: int, tf: int)
    requires Born(m, a, n, b, root, tf)
    ensures tf in b && b[tf].level == LOOSE
  {
    assert tf in Outside(b, root) && Outside(b, root)[tf] == b[tf];
  }

  /** A process that came and went left no trace. */
  lemma BornDied(m: Mem, a: Account, n: Mem, b: Account, o: Mem, c: Account, root: int, tf: int)
    requires Born(m, a, n, b, root, tf) && Died(n, b, o, c, root, tf)
    ensures Same(m, a, o, c)
  {
    assert a[tf := Place(LOOSE, 0, 0)] - {tf} == a;
    forall r, u | IsRoot(a, r) && 0 <= u < VPNS ensures Sees(m, a, o, c, r, u) {
      BornRoot(m, a, n, b, root, tf, r);
      assert Sees(m, a, n, b, r, u) && Sees(n, b, o, c, r, u);
    }
  }

  /** The page table of the trapframe could not be built, and the trapframe was freed again. */
  lemma NeverBorn(m: Mem, a: Account, n: Mem, b: Account, o: Mem, c: Account, q: Mem, d: Account, src: int, tf: int)
    requires Own(m, a) && IsRoot(a, src) && New(m, a, n, b, src, tf) && b == a[tf := Place(LOOSE, 0, 0)]
    requires Same(n, b, o, c) && Own(o, c) && d == c - {tf} && SameTables(o, q, d)
    requires Managed(o, tf) && |q.pages| == |o.pages| && q.pages == o.pages[tf := q.pages[tf]]
    ensures Same(m, a, q, d)
  {
    assert d == a;
    FreedSees(o, c, q, d, src, tf);
    forall r, u | IsRoot(a, r) && 0 <= u < VPNS ensures Sees(m, a, q, d, r, u) {
      assert IsRoot(b, r) && Sees(m, a, n, b, r, u) && Sees(n, b, o, c, r, u) && Sees(o, c, q, d, r, u);
    }
    assert User(a) <= User(b);
  }

  /** What was copied is what the parent had from the start. */
  lemma CopiedFrom(m: Mem, a: Account, n: Mem, b: Account, o: Mem, src: int, dst: int, sz: int, tf: int, tramp: int,
                   root: int, newtf: int)
    requires Own(m, a) && Shape(o) && Image(m, a, src, sz, tf, tramp) && Born(m, a, n, b, root, newtf)
    requires Copied(n, o, src, dst, Up(sz))
    ensures Copied(m, o, src, dst, Up(sz))
  {
    forall u | 0 <= u < Up(sz) ensures CopiedAt(m, o, src, dst, u) {
      assert Sees(m, a, n, b, src, u) && CopiedAt(n, o, src, dst, u);
      if Lookup(m, src, u) != 0 {
        OwnedPage(m, a, src, u);
      }
    }
  }

  /** The memory side of kfork (allocproc, uvmcopy and, on failure, freeproc): the child
      has a copy of the parent's memory, or every page taken is free again. */
  method Fork(mem: Memory, src: int, sz: int, tramp: int, ghost parentTf: int) returns (r: int, root: int, tf: int)
    requires mem.Valid() && Image(mem.Snapshot(), mem.owner, src, sz, parentTf, tramp)
    modifies mem, mem.pages
    ensures mem.Valid() && (r == 0 || r == -1)
    ensures r == -1 ==> Same(old(mem.Snapshot()), old(mem.owner), mem.Snapshot(), mem.owner)
    ensures r == -1 ==> |old(mem.free)| < 6 + 3 * Up(sz)
    ensures r == 0 ==> Born(old(mem.Snapshot()), old(mem.owner), mem.Snapshot(), mem.owner, root, tf)
    ensures r == 0 ==> Image(mem.Snapshot(), mem.owner, root, sz, tf, tramp)
    ensures r == 0 ==> Image(mem.Snapshot(), mem.owner, src, sz, parentTf, tramp)
    ensures r == 0 ==> Copied(old(mem.Snapshot()), mem.Snapshot(), src, root, Up(sz))
  {
    ghost var m, a := mem.Snapshot(), mem.owner;
    root := 0;
    tf := mem.Kalloc();
    if tf == 0 {
      return -1, 0, 0;
    }
    ghost var m1, a1 := mem.Snapshot(), mem.owner;
    LooseSees(m, a, m1, a1, src, tf);
    root := ProcPagetable(mem, tf, tramp);
    ghost var m2, a2 := mem.Snapshot(), mem.owner;
    if root == 0 {
      mem.KfreeLoose(tf);
      NeverBorn(m, a, m1, a1, m2, a2, mem.Snapshot(), mem.owner, src, tf);
      return -1, 0, 0;
    }
    BornSees(m, a, m1, a1, m2, a2, root, tf, src);
    ForkReady(m, a, m2, a2, src, sz, parentTf, tramp, root, tf);
    r := mem.Uvmcopy(src, root, sz);
    ghost var m3, a3 := mem.Snapshot(), mem.owner;
    if r == 0 {
      Forked(m, a, m2, a2, m3, a3, src, sz, parentTf, tramp, root, tf);
    } else {
      RemapApart(m2, a2, m3, a3, root, 0, 0);
      BornApart(m, a, m2, a2, m3, a3, root, tf);
      BornLoose(m, a, m3, a3, root, tf);
      ImageKept(m2, a2, m3, a3, root, 0, 0, tf, tramp, 0, 0);
      var _ := Freeproc(mem, root, 0, tf, tramp);
      BornDied(m, a, m3, a3, mem.Snapshot(), mem.owner, root, tf);
    }
  }

  lemma ForkReady(m: Mem, a: Account, n: Mem, b: Account, src: int, sz: int, parentTf: int, tramp: int, root: int,
                  tf: int)
    requires Own(m, a) && Own(n, b) && Image(m, a, src, sz, parentTf, tramp) && Born(m, a, n, b, root, tf)
    requires Image(n, b, root, 0, tf, tramp)
    ensures IsRoot(b, src) && src != root && AllReadable(n, b, src, Up(sz)) && Unmapped(n, root, 0, Up(sz))
    ensures Up(sz) <= TRAPFRAME
  {
    BornRoot(m, a, n, b, root, tf, src);
    ImageSeen(m, a, n, b, src, sz, parentTf, tramp);
    ImageReadable(n, b, src, sz, parentTf, tramp);
  }

  lemma Forked(m: Mem, a: Account, n: Mem, b: Account, o: Mem, c: Account,
               src: int, sz: int, parentTf: int, tramp: int, root: int, tf: int)
    requires Own(m, a) && Shape(n) && Shape(o) && Image(m, a, src, sz, parentTf, tramp) && Born(m, a, n, b, root, tf)
    requires Image(n, b, root, 0, tf, tramp) && Growing(n, b, o, c, root, 0, Up(sz)) && Copied(n, o, src, root, Up(sz))
    ensures Born(m, a, o, c, root, tf) && Image(o, c, root, sz, tf, tramp) && Copied(m, o, src, root, Up(sz))
    ensures Image(o, c, src, sz, parentTf, tramp)
  {
    RemapApart(n, b, o, c, root, 0, Up(sz));
    BornApart(m, a, n, b, o, c, root, tf);
    ImageKept(n, b, o, c, root, 0, sz, tf, tramp, 0, Up(sz));
    CopiedFrom(m, a, n, b, o, src, root, sz, parentTf, tramp, root, tf);
    BornRoot(m, a, o, c, root, tf, src);
    ImageSeen(m, a, o, c, src, sz, parentTf, tramp);
  }

  // ---- a whole life

  datatype Request = Brk(n: int, eager: bool) | Touch(va: int)

  /** Past TRAPFRAME the code panics in mappages or walk. */
  predicate Fits(sz: int, q: Request) {
    match q
    case Brk(n, _) => Int32(n) && sz + n <= MAXSZ
    case Touch(va) => 0 <= va
  }

  /** The size after a request; growth at once may fail for want of memory. */
  predicate NextSize(sz: int, q: Request, now: int) {
    if !Fits(sz, q) || q.Touch? then now == sz
    else now == (if 0 <= sz + q.n then sz + q.n else sz) || (q.eager && q.n > 0 && now == sz)
  }

  method Serve(mem: Memory, root: int, sz: int, q: Request, ghost tf: int, ghost tramp: int) returns (now: int)
    requires mem.Valid() && Image(mem.Snapshot(), mem.owner, root, sz, tf, tramp) && Fits(sz, q)
    modifies mem, mem.pages
    ensures mem.Valid() && Image(mem.Snapshot(), mem.owner, root, now, tf, tramp) && NextSize(sz, q, now)
    ensures Apart(old(mem.Snapshot()), old(mem.owner), mem.Snapshot(), mem.owner, root)
  {
    now := sz;
    match q
    case Brk(n, eager) =>
      var r;
      r, now := Sbrk(mem, root, sz, n, eager, tf, tramp);
    case Touch(va) =>
      var _, _ := Vmfault(mem, root, sz, va, tf, tramp);
  }

  /** The memory, the account and the size of a process at some moment of its life. */
  datatype Moment = Moment(mem: Mem, owner: Account, size: int)

  ghost predicate Alive(m: Mem, a: Account, x: Moment, root: int, tf: int, tramp: int) {
    && Shape(x.mem) && Born(m, a, x.mem, x.owner, root, tf)
    && Image(x.mem, x.owner, root, x.size, tf, tramp)
  }

  /** A child with a copy of its parent's memory, and what each request made of it. */
  ghost predicate Lived(m: Mem, a: Account, life: seq<Moment>, src: int, sz: int, root: int, tf: int, tramp: int,
                        requests: seq<Request>) {
    && |life| == |requests| + 1
    && (forall k {:trigger Alive(m, a, life[k], root, tf, tramp)} ::
          0 <= k < |life| ==> Alive(m, a, life[k], root, tf, tramp))
    && life[0].size == sz && Shape(m) && Shape(life[0].mem) && Copied(m, life[0].mem, src, root, Up(sz))
    && (forall k {:trigger SizeAt(life, requests, k)} :: SizeAt(life, requests, k))
  }

  predicate SizeAt(life: seq<Moment>, requests: seq<Request>, k: int) {
    0 <= k < |requests| && k + 1 < |life| ==> NextSize(life[k].size, requests[k], life[k + 1].size)
  }

  lemma LivedNone(m: Mem, a: Account, x: Moment, src: int, sz: int, root: int, tf: int, tramp: int,
                  requests: seq<Request>)
    requires Shape(m) && Alive(m, a, x, root, tf, tramp) && x.size == sz && requests == []
    requires Copied(m, x.mem, src, root, Up(sz))
    ensures Lived(m, a, [x], src, sz, root, tf, tramp, requests)
  {}

  lemma LivedOn(m: Mem, a: Account, life: seq<Moment>, src: int, sz: int, root: int, tf: int, tramp: int,
                requests: seq<Request>, k: nat, x: Moment)
    requires k < |requests| && Lived(m, a, life, src, sz, root, tf, tramp, requests[..k])
    requires Alive(m, a, x, root, tf, tramp) && NextSize(life[k].size, requests[k], x.size)
    ensures Lived(m, a, life + [x], src, sz, root, tf, tramp, requests[..k + 1])
  {
    var on, done := life + [x], requests[..k + 1];
    forall j ensures SizeAt(on, done, j) {
      assert SizeAt(life, requests[..k], j);
    }
    forall j | 0 <= j < |on| ensures Alive(m, a, on[j], root, tf, tramp) {
      assert j < |life| ==> Alive(m, a, life[j], root, tf, tramp);
    }
  }

  /** A child is forked, grows, shrinks and faults in any way, and is freed: whatever failed on
      the way, every page is returned, and nobody else's pages, contents or translations differ. */
  method Life(mem: Memory, src: int, sz: int, tramp: int, requests: seq<Request>, ghost parentTf: int)
    returns (ok: bool, forked: bool, ghost life: seq<Moment>, ghost root: int, ghost tf: int)
    requires mem.Valid() && Image(mem.Snapshot(), mem.owner, src, sz, parentTf, tramp)
    modifies mem, mem.pages
    ensures ok && mem.Valid() && Same(old(mem.Snapshot()), old(mem.owner), mem.Snapshot(), mem.owner)
    ensures forked || |old(mem.free)| < 6 + 3 * Up(sz)
    ensures forked ==> Lived(old(mem.Snapshot()), old(mem.owner), life, src, sz, root, tf, tramp, requests)
  {
    ghost var m, a := mem.Snapshot(), mem.owner;
    var r, table, frame := Fork(mem, src, sz, tramp, parentTf);
    ok, forked, life, root, tf := true, r == 0, [], table, frame;
    if !forked {
      return;
    }
    var size := sz;
    life := [Moment(mem.Snapshot(), mem.owner, size)];
    LivedNone(m, a, life[0], src, sz, table, frame, tramp, requests[..0]);
    for i := 0 to |requests|
      invariant mem.Valid() && Alive(m, a, Moment(mem.Snapshot(), mem.owner, size), table, frame, tramp)
      invariant Lived(m, a, life, src, sz, table, frame, tramp, requests[..i]) && life[i].size == size
    {
      ghost var n, b, was := mem.Snapshot(), mem.owner, size;
      if Fits(size, requests[i]) {
        size := Serve(mem, table, size, requests[i], frame, tramp);
        BornApart(m, a, n, b, mem.Snapshot(), mem.owner, table, frame);
      }
      LivedOn(m, a, life, src, sz, table, frame, tramp, requests, i, Moment(mem.Snapshot(), mem.owner, size));
      life := life + [Moment(mem.Snapshot(), mem.owner, size)];
    }
    assert requests[..|requests|] == requests;
    ghost var n, b := mem.Snapshot(), mem.owner;
    BornLoose(m, a, n, b, table, frame);
    ok := Freeproc(mem, table, size, frame, tramp);
    BornDied(m, a, n, b, mem.Snapshot(), mem.owner, table, frame);
  }
}
