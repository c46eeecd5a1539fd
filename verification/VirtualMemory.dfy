/** kernel/kalloc.c and the user page tables of kernel/vm.c, in place: page
    contents, the links of the free list inside the free pages, and entries. */
module VirtualMemory {
  import opened PageTable
  import opened PageTree
  import opened PageRuns

  function Fill(x: int, n: nat): (w: seq<int>)
    ensures |w| == n && forall i :: 0 <= i < n ==> w[i] == x
  {
    if n == 0 then [] else Fill(x, n - 1) + [x]
  }

  const JUNK5 := 0x0505_0505_0505_0505
  const JUNK1 := 0x0101_0101_0101_0101

  // ---- the free list

  /** The list from head on is free, linked through the first word of each page. */
  ghost predicate Chain(m: Mem, head: int, free: seq<int>)
    requires Shape(m)
    decreases |free|
  {
    if free == [] then head == 0
    else
      && head == free[0] && Managed(m, head) && head !in free[1..]
      && Chain(m, Word(m, head, 0) / PGSIZE, free[1..])
  }

  lemma {:induction false} ChainFrame(m: Mem, n: Mem, head: int, free: seq<int>)
    requires Shape(m) && Shape(n) && Chain(m, head, free) && n.base == m.base && |n.pages| == |m.pages|
    requires forall p :: p in free && 0 <= p < |m.pages| ==> n.pages[p] == m.pages[p]
    ensures Chain(n, head, free)
    decreases |free|
  {
    if free != [] {
      assert head in free;
      ChainFrame(m, n, Word(m, head, 0) / PGSIZE, free[1..]);
    }
  }

  /** A managed page is either free or in the account. */
  ghost predicate Partition(m: Mem, owner: Account, free: seq<int>) {
    && (forall p :: p in free ==> Managed(m, p))
    && (forall p {:trigger p in free} :: Managed(m, p) ==> (p in owner <==> p !in free))
  }

  class Memory {
    const base: int
    const pages: array<Page>
    var freelist: int   // 0 is the null pointer
    ghost var owner: Account
    ghost var free: seq<int>

    ghost function Snapshot(): (m: Mem)
      reads pages
    {
      Mem(base, pages[..])
    }

    ghost predicate ListOk()
      reads this, pages
    {
      Shape(Snapshot()) && Chain(Snapshot(), freelist, free)
    }

    ghost predicate Valid()
      reads this, pages
    {
      ListOk() && Own(Snapshot(), owner) && Partition(Snapshot(), owner, free)
    }

    method Kfree(p: int)
      requires ListOk() && Managed(Snapshot(), p) && p !in free
      modifies pages, this`freelist, this`free
      ensures ListOk() && free == [p] + old(free) && pages[..] == old(pages[..])[p := pages[p]]
    {
      ghost var m := Snapshot();
      pages[p] := Page(Fill(JUNK1, ENTRIES)[0 := freelist * PGSIZE]);
      ChainFrame(m, Snapshot(), freelist, free);
      free := [p] + free;
      freelist := p;
      assert free[1..] == old(free);
    }

    /** 0 means that there is no free page. */
    method Kalloc() returns (p: int)
      requires Valid()
      modifies pages, this`freelist, this`free, this`owner
      ensures Valid()
      ensures p == 0 <==> old(free) == []
      ensures p == 0 ==> Snapshot() == old(Snapshot()) && owner == old(owner) && free == old(free)
      ensures p != 0 ==> p == old(free)[0] && free == old(free)[1..] && p !in old(owner) && Managed(Snapshot(), p)
      ensures p != 0 ==> owner == old(owner)[p := Place(LOOSE, 0, 0)] && pages[..] == old(pages[..])[p := pages[p]]
    {
      p := freelist;
      if p != 0 {
        ghost var m := Snapshot();
        assert p in free;
        freelist := pages[p].w[0] / PGSIZE;
        pages[p] := Page(Fill(JUNK5, ENTRIES));
        ChainFrame(m, Snapshot(), freelist, free[1..]);
        LooseOwn(m, Snapshot(), owner, p);
        owner := owner[p := Place(LOOSE, 0, 0)];
        TailPartition(m, old(owner), free);
        free := free[1..];
      }
    }

    method Zero(p: int)
      requires Valid() && p in owner && owner[p].level == LOOSE && Managed(Snapshot(), p)
      modifies pages
      ensures Valid() && pages[..] == old(pages[..])[p := pages[p]]
      ensures forall i :: 0 <= i < ENTRIES ==> pages[p].w[i] == 0
    {
      ghost var m := Snapshot();
      pages[p] := Page(Fill(0, ENTRIES));
      ChainFrame(m, Snapshot(), freelist, free);
      SameOwn(m, Snapshot(), owner);
    }

    /** Stores entry e for page p in table q; the entry owns p, or is a leaf that does not. */
    method Store(q: int, i: int, e: int, ghost p: int, ghost own: bool)
      requires Valid() && IsEntry(Snapshot(), owner, q, i) && !V(pages[q].w[i])
      requires V(e) && Ppn(e) == p && Leaf(e) == (owner[q].level == 0)
      requires if own then p in owner && owner[p].level == LOOSE else owner[q].level == 0
      requires owner[q].level > 0 ==> NoEntries(Snapshot(), p)
      requires owner[q].level == 2 ==> i < ROOTENTRIES
      modifies pages, this`owner
      ensures Valid() && owner == Entered(old(owner), p, Place(old(owner)[q].level - 1, q, i), own)
      ensures pages[q].w[i] == e && pages[..] == old(pages[..])[q := pages[q]]
      ensures SameTablesBut(old(Snapshot()), Snapshot(), old(owner), q, i)
    {
      ghost var m := Snapshot();
      assert PageOk(m, owner, q) && (own ==> PageOk(m, owner, p));
      pages[q] := Page(pages[q].w[i := e]);
      ChainFrame(m, Snapshot(), freelist, free);
      if owner[q].level > 0 {
        NoEntriesSame(m, Snapshot(), p);
      }
      ghost var now := Entered(owner, p, Place(owner[q].level - 1, q, i), own);
      StoreOwn(m, Snapshot(), owner, q, i, p, own);
      SamePartition(m, owner, Snapshot(), now, free);
      owner := now;
    }

    /** walk's new table page for entry i of q; 0 if memory is out. */
    method NewTable(q: int, i: int, ghost root: int) returns (p: int)
      requires Valid() && IsEntry(Snapshot(), owner, q, i) && owner[q].level > 0 && !V(pages[q].w[i])
      requires IsRoot(owner, root) && Below(owner, q, root) && (owner[q].level == 2 ==> i < ROOTENTRIES)
      modifies pages, this`freelist, this`free, this`owner
      ensures Valid() && Keeps(old(Snapshot()), old(owner), Snapshot(), owner, root)
      ensures p == 0 ==> old(free) == [] && Snapshot() == old(Snapshot()) && owner == old(owner) && free == []
      ensures |free| >= |old(free)| - 1
      ensures p != 0 ==> Child(Snapshot(), q, i) == p && IsTable(Snapshot(), owner, p) && Below(owner, p, root)
      ensures p != 0 ==> owner[p] == Place(old(owner)[q].level - 1, q, i)
      ensures SameTablesBut(old(Snapshot()), Snapshot(), old(owner), q, i)
    {
      ghost var m, was := Snapshot(), owner;
      assert PageOk(m, was, q);
      p := Kalloc();
      if p == 0 {
        KeepsAll(m, was, root);
        return;
      }
      Zero(p);
      ghost var m1 := Snapshot();
      Store(q, i, Entry(p, 0), p, true);
      NewTableKeeps(m, m1, Snapshot(), was, owner, root, q, i, p, owner[p]);
    }

    /** One level of walk: the table below t, a new one if need be; -1 if there is none. */
    method Descend(t: int, i: int, alloc: bool, ghost root: int) returns (p: int)
      requires Valid() && IsEntry(Snapshot(), owner, t, i) && owner[t].level > 0
      requires IsRoot(owner, root) && Below(owner, t, root) && (owner[t].level == 2 ==> i < ROOTENTRIES)
      modifies pages, this`freelist, this`free, this`owner
      ensures Valid() && Keeps(old(Snapshot()), old(owner), Snapshot(), owner, root)
      ensures SameTablesBut(old(Snapshot()), Snapshot(), old(owner), t, i)
      ensures !alloc ==> Snapshot() == old(Snapshot()) && owner == old(owner) && free == old(free)
      ensures !alloc || p != -1 ==> p == Child(Snapshot(), t, i)
      ensures p == -1 && alloc ==> free == [] && old(free) == []
      ensures |free| >= |old(free)| - 1
      ensures p != -1 ==> IsTable(Snapshot(), owner, p) && Below(owner, p, root)
      ensures p != -1 ==> owner[p].level == old(owner)[t].level - 1
    {
      ghost var m, was := Snapshot(), owner;
      KeepsAll(m, was, root);
      ChildPlace(m, was, t, i, root);
      var e := pages[t].w[i];
      if V(e) {
        return Ppn(e);
      }
      if !alloc {
        return -1;
      }
      p := NewTable(t, i, root);
      if p == 0 {
        return -1;
      }
    }

    /** The entry for page v: index Px(0, v) of table t; t == -1 if there is none. */
    method Walk(root: int, v: int, alloc: bool) returns (t: int)
      requires Valid() && IsRoot(owner, root) && 0 <= v < VPNS
      modifies pages, this`freelist, this`free, this`owner
      ensures Valid() && Keeps(old(Snapshot()), old(owner), Snapshot(), owner, root)
      ensures !alloc ==> Snapshot() == old(Snapshot()) && owner == old(owner) && free == old(free)
      ensures !alloc ==> t == TableFor(Snapshot(), root, v)
      ensures t == -1 && alloc ==> free == [] && |old(free)| < 2
      ensures |free| >= |old(free)| - 2
      ensures t != -1 ==> t == TableFor(Snapshot(), root, v) && IsTable(Snapshot(), owner, t) && owner[t].level == 0
    {
      ghost var m, was := Snapshot(), owner;
      t := root;
      var level := 2;
      TablePlace(m, was, root, v);
      KeepsAll(m, was, root);
      while level > 0
        invariant 0 <= level <= 2 && Valid() && Keeps(m, was, Snapshot(), owner, root)
        invariant !alloc ==> Snapshot() == m && owner == was && free == old(free)
        invariant OnTheWay(Snapshot(), owner, root, v, level, t) && |free| >= |old(free)| - (2 - level)
      {
        ghost var mid, now := Snapshot(), owner;
        var p := Descend(t, Px(level, v), alloc, root);
        KeepsTrans(m, was, mid, now, Snapshot(), owner, root);
        if p == -1 {
          return -1;
        }
        Onward(mid, now, Snapshot(), owner, root, v, level, t, p);
        t, level := p, level - 1;
      }
    }

    /** One round of mappages: page v of root becomes p; false if memory is out. */
    method MapOne(root: int, v: int, p: int, perm: int, ghost own: bool) returns (ok: bool)
      requires Valid() && IsRoot(owner, root) && 0 <= v < VPNS && 0 <= p && (own ==> p in Loose(owner))
      requires 0 <= perm < 1024 && Leaf(perm) && Lookup(Snapshot(), root, v) == 0
      modifies pages, this`freelist, this`free, this`owner
      ensures Valid()
      ensures !ok ==> free == [] && |old(free)| < 2 && Keeps(old(Snapshot()), old(owner), Snapshot(), owner, root)
      ensures |free| >= |old(free)| - 2
      ensures ok ==> MapsOne(old(Snapshot()), old(owner), Snapshot(), owner, root, v, p, perm, own)
    {
      ghost var m, was := Snapshot(), owner;
      var t := Walk(root, v, true);
      ghost var n, now := Snapshot(), owner;
      if t == -1 {
        return false;
      }
      assert Sees(m, was, n, now, root, v);
      Store(t, Px(0, v), Entry(p, perm), p, own);
      MapSees(n, now, Snapshot(), owner, root, v, t, p, perm, own);
      MapsLater(m, was, n, now, Snapshot(), owner, root, v, p, perm, own);
      return true;
    }

    /** mappages of n pages from v to the pages from p on.  With own these are loose
        pages, which now belong to their entries; else they may be any physical
        pages, as kvmmap's ranges, the trampoline and the trapframe are.  If
        memory runs out, the first done pages are mapped. */
    method Mappages(root: int, v: int, n: int, p: int, perm: int, ghost own: bool) returns (r: int, ghost done: int)
      requires Valid() && IsRoot(owner, root) && 0 <= v && 0 < n && v + n <= VPNS && 0 <= perm < 1024 && Leaf(perm)
      requires 0 <= p && (own ==> Span(p, n) <= Loose(owner)) && Unmapped(Snapshot(), root, v, v + n)
      modifies pages, this`freelist, this`free, this`owner
      ensures Valid() && ((r == 0 && done == n) || (r == -1 && 0 <= done < n && free == []))
      ensures r == -1 ==> |old(free)| < 2 * done + 2
      ensures |free| >= |old(free)| - 2 * done - (if r == 0 then 0 else 2)
      ensures Mapping(old(Snapshot()), old(owner), Snapshot(), owner, root, v, done, p, perm, own)
    {
      done := 0;
      ghost var m, was := Snapshot(), owner;
      MappingNone(m, was, root, v, p, perm, own);
      var a, pa, last := v, p, v + n - 1;
      while true
        invariant 0 <= done < n && a == v + done && pa == p + done && Valid() && |free| >= |old(free)| - 2 * done
        invariant Mapping(m, was, Snapshot(), owner, root, v, done, p, perm, own)
        decreases n - done
      {
        ghost var mid, now := Snapshot(), owner;
        NextToMap(m, was, mid, now, root, v, n, done, p, perm, own, a, pa);
        var ok := MapOne(root, a, pa, perm, own);
        if !ok {
          MappingStop(m, was, mid, now, Snapshot(), owner, root, v, done, p, perm, own);
          return -1, done;
        }
        MappingStep(m, was, mid, now, Snapshot(), owner, root, v, done, p, perm, own, a, pa);
        done := done + 1;
        if a == last {
          return 0, done;
        }
        a, pa := a + 1, pa + 1;
      }
    }

    /** Clears leaf entry i of q; the page p it owned has been freed if doFree. */
    method Detach(q: int, i: int, ghost p: int, ghost owns: bool, ghost doFree: bool, ghost m: Mem)
      requires ListOk() && Own(m, owner) && m.base == base && |m.pages| == pages.Length
      requires IsEntry(m, owner, q, i) && owner[q].level == 0 && V(Word(m, q, i)) && p == Ppn(Word(m, q, i))
      requires owns == Owns(m, owner, q, i)
      requires if doFree then owns && free != [] && free[0] == p && p !in free[1..] && Partition(m, owner, free[1..])
               else Partition(m, owner, free)
      requires pages[..] == if doFree && 0 <= p < |m.pages| then m.pages[p := pages[p]] else m.pages
      modifies pages, this`owner
      ensures Valid() && owner == Drop(old(owner), if owns then {p} else {}, doFree)
      ensures SameTablesBut(m, Snapshot(), old(owner), q, i) && !V(pages[q].w[i])
      ensures pages[..] == old(pages[..])[q := pages[q]]
    {
      ghost var n := Snapshot();
      TableNotFree(m, owner, q, i, p, free, owns, doFree);
      pages[q] := Page(pages[q].w[i := 0]);
      ChainFrame(n, Snapshot(), freelist, free);
      ClearLeafOwn(m, Snapshot(), owner, q, i, p, owns, doFree);
      DropPartition(m, Snapshot(), owner, free, p, owns, doFree);
      owner := Drop(owner, if owns then {p} else {}, doFree);
    }

    /** One round of uvmunmap. */
    method UnmapOne(root: int, v: int, doFree: bool)
      requires Valid() && IsRoot(owner, root) && 0 <= v < VPNS
      requires doFree ==> Backed(Snapshot(), owner, root, v, v + 1)
      modifies pages, this`freelist, this`free, this`owner
      ensures Valid() && Unmapping(old(Snapshot()), old(owner), Snapshot(), owner, root, v, v + 1, doFree)
    {
      ghost var m, was := Snapshot(), owner;
      var t := Walk(root, v, false);
      TablePlace(m, was, root, v);
      if t == -1 {
        UnmapsNothing(m, was, root, v, doFree);
        return;
      }
      var e := pages[t].w[Px(0, v)];
      if !V(e) {
        UnmapsNothing(m, was, root, v, doFree);
        return;
      }
      ghost var p, owns := Ppn(e), Owned(m, was, root, v);
      OwnsLeaf(m, was, root, v);
      if doFree {
        OwnedPage(m, was, root, v);
        Kfree(Ppn(e));
        assert free[1..] == old(free);
      }
      Detach(t, Px(0, v), p, owns, doFree, m);
      UnmapSees(m, was, Snapshot(), owner, root, v, t, p, doFree);
    }

    /** One round of uvmunmap's loop, seen from its start. */
    method UnmapNext(root: int, v: int, a: int, doFree: bool, ghost m: Mem, ghost was: Account)
      requires Valid() && IsRoot(was, root) && 0 <= v <= a < VPNS && Shape(m)
      requires Unmapping(m, was, Snapshot(), owner, root, v, a, doFree)
      requires doFree ==> Backed(m, was, root, v, a + 1)
      modifies pages, this`freelist, this`free, this`owner
      ensures Valid() && Unmapping(m, was, Snapshot(), owner, root, v, a + 1, doFree)
    {
      ghost var mid, now := Snapshot(), owner;
      assert Sees(m, was, mid, now, root, a);
      UnmapOne(root, a, doFree);
      UnmappingStep(m, was, mid, now, Snapshot(), owner, root, v, a, doFree);
    }

    /** uvmunmap of n pages from v on.  What is freed must belong to its entry. */
    method Uvmunmap(root: int, v: int, n: int, doFree: bool)
      requires Valid() && IsRoot(owner, root) && 0 <= v && 0 <= n && v + n <= VPNS
      requires doFree ==> Backed(Snapshot(), owner, root, v, v + n)
      modifies pages, this`freelist, this`free, this`owner
      ensures Valid() && Unmapping(old(Snapshot()), old(owner), Snapshot(), owner, root, v, v + n, doFree)
    {
      ghost var m, was := Snapshot(), owner;
      UnmappingNone(m, was, root, v, doFree);
      for a := v to v + n
        invariant Valid() && Unmapping(m, was, Snapshot(), owner, root, v, a, doFree)
      {
        UnmapNext(root, v, a, doFree, m, was);
      }
    }

    /** uvmdealloc, in bytes. */
    method Uvmdealloc(root: int, oldsz: int, newsz: int) returns (r: int)
      requires Valid() && IsRoot(owner, root) && 0 <= oldsz <= VPNS * PGSIZE && 0 <= newsz
      requires Backed(Snapshot(), owner, root, Up(newsz), Up(oldsz))
      modifies pages, this`freelist, this`free, this`owner
      ensures Valid() && r == (if newsz < oldsz then newsz else oldsz)
      ensures Unmapping(old(Snapshot()), old(owner), Snapshot(), owner, root, Up(r), Up(oldsz), true)
    {
      UnmappingNone(Snapshot(), owner, root, Up(oldsz), true);
      if newsz >= oldsz {
        return oldsz;
      }
      if Up(newsz) < Up(oldsz) {
        Uvmunmap(root, Up(newsz), Up(oldsz) - Up(newsz), true);
      }
      return newsz;
    }

    /** kfree of a page that no table owns. */
    method KfreeLoose(p: int)
      requires Valid() && p in owner && owner[p].level == LOOSE
      modifies pages, this`freelist, this`free, this`owner
      ensures Valid() && owner == old(owner) - {p} && free == [p] + old(free)
      ensures pages[..] == old(pages[..])[p := pages[p]] && SameTables(old(Snapshot()), Snapshot(), owner)
    {
      ghost var m := Snapshot();
      assert PageOk(m, owner, p);
      Kfree(p);
      assert free[1..] == old(free);
      FreeOwn(m, Snapshot(), owner, p);
      HeadPartition(m, owner, free);
      owner := owner - {p};
    }

    /** Maps the loose page p, which is new since m, to page u of root; if memory
        is out, p is freed again. */
    method MapNew(root: int, u: int, p: int, perm: int, ghost m: Mem, ghost was: Account) returns (ok: bool)
      requires Valid() && IsRoot(was, root) && 0 <= u < VPNS && 0 <= perm < 1024 && Leaf(perm)
      requires New(m, was, Snapshot(), owner, root, p) && p < pages.Length && Lookup(Snapshot(), root, u) == 0
      modifies pages, this`freelist, this`free, this`owner
      ensures Valid() && GrowsOne(m, was, Snapshot(), owner, root, u, if ok then p else 0, perm, old(pages[p]))
      ensures if ok then |free| >= |old(free)| - 2 else |old(free)| < 2
    {
      ghost var m1, a1 := Snapshot(), owner;
      NewLoose(m, was, m1, a1, root, p);
      ghost var done;
      var r;
      r, done := Mappages(root, u, 1, p, perm, true);
      ok := r == 0;
      if ok {
        GrowSeen(m, was, m1, a1, Snapshot(), owner, root, u, p, perm);
      } else {
        ghost var m2, a2 := Snapshot(), owner;
        StillLoose(m, was, m1, a1, m2, a2, root, u, p, perm);
        KfreeLoose(p);
        DropSees(m, was, m1, a1, m2, a2, Snapshot(), owner, root, u, p, perm, m1.pages[p]);
      }
    }

    /** kalloc and memset; 0 if memory is out. */
    method ZeroedPage(ghost root: int) returns (p: int)
      requires Valid() && IsRoot(owner, root)
      modifies pages, this`freelist, this`free, this`owner
      ensures Valid() && (p == 0 ==> Snapshot() == old(Snapshot()) && owner == old(owner))
      ensures p != 0 ==> New(old(Snapshot()), old(owner), Snapshot(), owner, root, p)
      ensures p != 0 ==> p < pages.Length && ZeroPage(pages[p])
      ensures if p == 0 then old(free) == [] else |free| == |old(free)| - 1
    {
      ghost var m, was := Snapshot(), owner;
      p := Kalloc();
      if p != 0 {
        Zero(p);
        LooseSees(m, was, Snapshot(), owner, root, p);
      }
    }

    /** One round of uvmalloc: a zeroed page z for page u of root; p == 0 if memory is out. */
    method GrowOne(root: int, u: int, perm: int) returns (p: int, ghost z: Page)
      requires Valid() && IsRoot(owner, root) && 0 <= u < VPNS && 0 <= perm < 1024 && Leaf(perm)
      requires Lookup(Snapshot(), root, u) == 0
      modifies pages, this`freelist, this`free, this`owner
      ensures Valid() && ZeroPage(z)
      ensures if p == 0 then |old(free)| < 3 else |free| >= |old(free)| - 3
      ensures GrowsOne(old(Snapshot()), old(owner), Snapshot(), owner, root, u, p, perm, z)
    {
      ghost var m, was := Snapshot(), owner;
      z := Page(Fill(0, ENTRIES));
      p := ZeroedPage(root);
      if p == 0 {
        GrowsNone(m, was, root, u, perm, z);
        return;
      }
      z := pages[p];
      assert Sees(m, was, Snapshot(), owner, root, u);
      var ok := MapNew(root, u, p, perm, m, was);
      if !ok {
        p := 0;
      }
    }

    /** One round of uvmalloc's loop, seen from its start; on failure all is undone. */
    method GrowNext(root: int, lo: int, k: int, perm: int, ghost hi: int, ghost m: Mem, ghost was: Account)
      returns (ok: bool)
      requires Valid() && Shape(m) && IsRoot(was, root) && 0 <= lo <= k < hi <= VPNS && 0 <= perm < 1024 && Leaf(perm)
      requires Growing(m, was, Snapshot(), owner, root, lo, k) && ZeroRun(Snapshot(), root, lo, k, perm)
      requires Unmapped(m, root, lo, hi)
      modifies pages, this`freelist, this`free, this`owner
      ensures Valid()
      ensures ok ==> Growing(m, was, Snapshot(), owner, root, lo, k + 1) && ZeroRun(Snapshot(), root, lo, k + 1, perm)
      ensures !ok ==> NothingNew(m, was, Snapshot(), owner, root)
      ensures if ok then |free| >= |old(free)| - 3 else |old(free)| < 3
    {
      ghost var n, now := Snapshot(), owner;
      assert Sees(m, was, n, now, root, k);
      ghost var z;
      var p;
      p, z := GrowOne(root, k, perm);
      ghost var o, next := Snapshot(), owner;
      ok := p != 0;
      if ok {
        GrowingStep(m, was, n, now, o, next, root, lo, k, p, perm, z);
        ZeroRunStep(n, now, o, next, root, lo, k, p, perm, z);
      } else {
        GrowingStop(m, was, n, now, o, next, root, lo, k, perm, z);
        UndoGrowth(root, lo, k, m, was);
      }
    }

    /** uvmalloc's uvmdealloc after a failure. */
    method UndoGrowth(root: int, lo: int, k: int, ghost m: Mem, ghost was: Account)
      requires Valid() && Shape(m) && IsRoot(was, root) && 0 <= lo <= k < VPNS && Unmapped(m, root, lo, k)
      requires Growing(m, was, Snapshot(), owner, root, lo, k)
      modifies pages, this`freelist, this`free, this`owner
      ensures Valid() && NothingNew(m, was, Snapshot(), owner, root)
    {
      ghost var o, next := Snapshot(), owner;
      assert Up(k * PGSIZE) == k && Up(lo * PGSIZE) == lo && IsRoot(owner, root);
      var _ := Uvmdealloc(root, k * PGSIZE, lo * PGSIZE);
      Undone(m, was, o, next, Snapshot(), owner, root, lo, k);
    }

    /** uvmalloc's loop over the pages lo .. hi - 1. */
    method GrowLoop(root: int, lo: int, hi: int, perm: int) returns (ok: bool)
      requires Valid() && IsRoot(owner, root) && 0 <= lo <= hi <= VPNS && 0 <= perm < 1024 && Leaf(perm)
      requires Unmapped(Snapshot(), root, lo, hi)
      modifies pages, this`freelist, this`free, this`owner
      ensures Valid()
      ensures ok ==> Growing(old(Snapshot()), old(owner), Snapshot(), owner, root, lo, hi)
      ensures ok ==> ZeroRun(Snapshot(), root, lo, hi, perm)
      ensures !ok ==> NothingNew(old(Snapshot()), old(owner), Snapshot(), owner, root)
      ensures if ok then |free| >= |old(free)| - 3 * (hi - lo) else |old(free)| < 3 * (hi - lo)
    {
      ghost var m, was := Snapshot(), owner;
      GrowingNone(m, was, root, lo, perm);
      for k := lo to hi
        invariant Valid() && Growing(m, was, Snapshot(), owner, root, lo, k)
        invariant ZeroRun(Snapshot(), root, lo, k, perm) && |free| >= |old(free)| - 3 * (k - lo)
      {
        var fits := GrowNext(root, lo, k, perm, hi, m, was);
        if !fits {
          return false;
        }
      }
      return true;
    }

    /** uvmalloc, in bytes; 0 if memory is out, and then users see no change. */
    method Uvmalloc(root: int, oldsz: int, newsz: int, xperm: int) returns (r: int)
      requires Valid() && IsRoot(owner, root) && 0 <= oldsz && 0 <= newsz <= VPNS * PGSIZE && 0 <= xperm < 1024
      requires Unmapped(Snapshot(), root, Up(oldsz), Up(newsz))
      modifies pages, this`freelist, this`free, this`owner
      ensures Valid() && (r == 0 || r == (if newsz < oldsz then oldsz else newsz))
      ensures newsz < oldsz ==> r == oldsz && Snapshot() == old(Snapshot()) && owner == old(owner)
      ensures oldsz <= newsz && r != 0 ==>
        && Growing(old(Snapshot()), old(owner), Snapshot(), owner, root, Up(oldsz), Up(newsz))
        && ZeroRun(Snapshot(), root, Up(oldsz), Up(newsz), OrRU(xperm))
      ensures oldsz <= newsz && r == 0 && newsz > 0 ==> NothingNew(old(Snapshot()), old(owner), Snapshot(), owner, root)
      ensures r == 0 && newsz > 0 ==> |old(free)| < 3 * (Up(newsz) - Up(oldsz))
    {
      if newsz < oldsz {
        return oldsz;
      }
      var ok := GrowLoop(root, Up(oldsz), Up(newsz), OrRU(xperm));
      r := if ok then newsz else 0;
    }

    // ---- uvmcopy

    /** kalloc and memmove from page x; 0 if memory is out. */
    method CopiedPage(x: int, ghost root: int) returns (p: int)
      requires Valid() && IsRoot(owner, root) && (x in User(owner) || 0 <= x < base)
      modifies pages, this`freelist, this`free, this`owner
      ensures Valid() && (p == 0 ==> Snapshot() == old(Snapshot()) && owner == old(owner))
      ensures p != 0 ==> New(old(Snapshot()), old(owner), Snapshot(), owner, root, p)
      ensures 0 <= x < pages.Length && (p != 0 ==> p < pages.Length && pages[p] == old(pages[x]))
      ensures if p == 0 then old(free) == [] else |free| == |old(free)| - 1
    {
      ghost var m, was := Snapshot(), owner;
      assert x in was ==> PageOk(m, was, x);
      p := Kalloc();
      if p != 0 {
        ghost var n := Snapshot();
        pages[p] := pages[x];
        ChainFrame(n, Snapshot(), freelist, free);
        SameOwn(n, Snapshot(), owner);
        LooseSees(m, was, Snapshot(), owner, root, p);
      }
    }

    /** One round of uvmcopy for a page u that src maps, with entry e. */
    method CopyOne(src: int, dst: int, u: int) returns (ok: bool, ghost e: int)
      requires Valid() && IsRoot(owner, src) && IsRoot(owner, dst) && 0 <= u < VPNS
      requires Lookup(Snapshot(), src, u) != 0 && Lookup(Snapshot(), dst, u) == 0
      requires Readable(Snapshot(), owner, Lookup(Snapshot(), src, u))
      modifies pages, this`freelist, this`free, this`owner
      ensures Valid() && CopiesOne(old(Snapshot()), old(owner), Snapshot(), owner, src, dst, u, ok)
      ensures e == old(Lookup(Snapshot(), src, u)) && Flags(e) % 2 == 1
      ensures if ok then |free| >= |old(free)| - 3 else |old(free)| < 3
    {
      ghost var m, was := Snapshot(), owner;
      TablePlace(m, was, src, u);
      var t := Walk(src, u, false);
      var pte := pages[t].w[Px(0, u)];
      e := pte;
      LeafFlags(m, was, t, Px(0, u));
      var p := CopiedPage(Ppn(pte), dst);
      if p == 0 {
        CopiesNone(m, was, src, dst, u);
        return false, e;
      }
      assert Sees(m, was, Snapshot(), owner, dst, u);
      ok := MapNew(dst, u, p, Flags(pte), m, was);
      ghost var q := if ok then p else 0;
      assert GrowsOne(m, was, Snapshot(), owner, dst, u, q, Flags(e), m.pages[Ppn(e)]);
    }

    method IsMapped(root: int, u: int) returns (yes: bool)
      requires Valid() && IsRoot(owner, root) && 0 <= u < VPNS
      modifies pages, this`freelist, this`free, this`owner
      ensures Valid() && Snapshot() == old(Snapshot()) && owner == old(owner) && free == old(free)
      ensures yes == (Lookup(Snapshot(), root, u) != 0)
    {
      var t := Walk(root, u, false);
      TablePlace(Snapshot(), owner, root, u);
      yes := t != -1 && V(pages[t].w[Px(0, u)]);
    }

    /** One round of uvmcopy's loop, seen from its start; on failure all is undone. */
    method CopyNext(src: int, dst: int, k: int, ghost m: Mem, ghost was: Account) returns (ok: bool)
      requires Valid() && Own(m, was) && IsRoot(was, src) && IsRoot(was, dst) && src != dst && 0 <= k < VPNS
      requires Growing(m, was, Snapshot(), owner, dst, 0, k) && Copied(m, Snapshot(), src, dst, k)
      requires Unmapped(m, dst, 0, k + 1) && AllReadable(m, was, src, k + 1)
      modifies pages, this`freelist, this`free, this`owner
      ensures Valid()
      ensures ok ==> Growing(m, was, Snapshot(), owner, dst, 0, k + 1) && Copied(m, Snapshot(), src, dst, k + 1)
      ensures !ok ==> NothingNew(m, was, Snapshot(), owner, dst)
      ensures if ok then |free| >= |old(free)| - 3 else |old(free)| < 3
    {
      ghost var n, now := Snapshot(), owner;
      assert Sees(m, was, n, now, dst, k) && Sees(m, was, n, now, src, k) && IsRoot(now, src) && IsRoot(now, dst);
      var yes := IsMapped(src, k);
      if !yes {
        SkipStep(m, was, n, now, src, dst, k);
        return true;
      }
      StillReadable(m, was, n, now, dst, k, Lookup(m, src, k));
      ghost var e;
      ok, e := CopyOne(src, dst, k);
      ghost var o, next := Snapshot(), owner;
      if ok {
        CopyStep(m, was, n, now, o, next, src, dst, k, e);
      } else {
        CopyStop(m, was, n, now, o, next, src, dst, k);
        UndoCopy(dst, k, m, was);
      }
    }

    method UndoCopy(dst: int, k: int, ghost m: Mem, ghost was: Account)
      requires Valid() && Shape(m) && IsRoot(was, dst) && 0 <= k < VPNS && Unmapped(m, dst, 0, k)
      requires Growing(m, was, Snapshot(), owner, dst, 0, k)
      modifies pages, this`freelist, this`free, this`owner
      ensures Valid() && NothingNew(m, was, Snapshot(), owner, dst)
    {
      ghost var o, next := Snapshot(), owner;
      assert IsRoot(owner, dst);
      Uvmunmap(dst, 0, k, true);
      Undone(m, was, o, next, Snapshot(), owner, dst, 0, k);
    }

    /** uvmcopy of the first sz bytes: dst gets a copy of every page of src; on
        failure users see no change. */
    method Uvmcopy(src: int, dst: int, sz: int) returns (r: int)
      requires Valid() && IsRoot(owner, src) && IsRoot(owner, dst) && src != dst && 0 <= sz <= VPNS * PGSIZE
      requires Unmapped(Snapshot(), dst, 0, Up(sz)) && AllReadable(Snapshot(), owner, src, Up(sz))
      modifies pages, this`freelist, this`free, this`owner
      ensures Valid() && (r == 0 || r == -1)
      ensures r == 0 ==> Growing(old(Snapshot()), old(owner), Snapshot(), owner, dst, 0, Up(sz))
      ensures r == 0 ==> Copied(old(Snapshot()), Snapshot(), src, dst, Up(sz))
      ensures r == -1 ==> NothingNew(old(Snapshot()), old(owner), Snapshot(), owner, dst)
      ensures r == -1 ==> |old(free)| < 3 * Up(sz)
    {
      ghost var m, was := Snapshot(), owner;
      GrowingNone(m, was, dst, 0, 0);
      for k := 0 to Up(sz)
        invariant Valid() && Growing(m, was, Snapshot(), owner, dst, 0, k) && Copied(m, Snapshot(), src, dst, k)
        invariant |free| >= |old(free)| - 3 * k
      {
        var ok := CopyNext(src, dst, k, m, was);
        if !ok {
          return -1;
        }
      }
      return 0;
    }

    // ---- freewalk and uvmfree

    /** Frees table page q after its entries are gone; the entry that refers to q stays. */
    method KfreeTable(q: int)
      requires Valid() && IsTable(Snapshot(), owner, q) && NoEntries(Snapshot(), q)
      modifies pages, this`freelist, this`free, this`owner
      ensures ListOk() && Partition(Snapshot(), owner, free)
      ensures OwnBut(Snapshot(), owner, old(owner)[q]) && owner == old(owner) - {q}
      ensures old(owner)[q].level == 2 ==> Valid()
      ensures pages[..] == old(pages[..])[q := pages[q]]
    {
      ghost var m := Snapshot();
      assert PageOk(m, owner, q);
      Kfree(q);
      assert free[1..] == old(free);
      FreeOwn(m, Snapshot(), owner, q);
      HeadPartition(m, owner, free);
      owner := owner - {q};
    }

    /** pagetable[i] = 0, after the table it referred to was freed. */
    method ClearEntry(q: int, i: int, ghost hole: Place)
      requires ListOk() && Partition(Snapshot(), owner, free) && IsEntry(Snapshot(), owner, q, i)
      requires hole.table == q && hole.index == i
      requires OwnBut(Snapshot(), owner, hole) && Ppn(pages[q].w[i]) !in owner
      modifies pages
      ensures Valid() && pages[..] == old(pages[..])[q := Page(old(pages[q]).w[i := 0])]
    {
      ghost var m := Snapshot();
      pages[q] := Page(pages[q].w[i := 0]);
      ChainFrame(m, Snapshot(), freelist, free);
      ClearOwn(m, Snapshot(), owner, hole);
    }

    /** freewalk: the tree of table pages under q is freed; ok is false where the
        code panics because it meets a leaf. */
    method Freewalk(q: int) returns (ok: bool)
      requires Valid() && IsTable(Snapshot(), owner, q) && NoLeaves(Snapshot(), owner, q)
      modifies pages, this`freelist, this`free, this`owner
      ensures ok && ListOk() && Partition(Snapshot(), owner, free) && OwnBut(Snapshot(), owner, old(owner)[q])
      ensures old(owner)[q].level == 2 ==> Valid()
      ensures q !in owner && Pruned(old(owner), owner, q) && Retains(old(Snapshot()), Snapshot(), owner.Keys)
      decreases owner[q].level, 1
    {
      ghost var m, was := Snapshot(), owner;
      ok := true;
      for i := 0 to ENTRIES
        invariant ok && Valid() && IsTable(Snapshot(), owner, q) && owner[q] == was[q]
        invariant NoLeaves(Snapshot(), owner, q) && Pruned(was, owner, q)
        invariant Retains(m, Snapshot(), owner.Keys - {q})
        invariant forall j :: 0 <= j < i ==> !V(pages[q].w[j])
      {
        var e := pages[q].w[i];
        if V(e) {
          ghost var now := owner;
          ok := FreeChild(q, i);
          PrunedTrans(was, now, owner, q);
        }
      }
      ghost var now := owner;
      KfreeTable(q);
      PrunedSelf(was, now, owner, q);
    }

    /** One valid entry of freewalk's loop. */
    method FreeChild(q: int, i: int) returns (ok: bool)
      requires Valid() && IsEntry(Snapshot(), owner, q, i) && NoLeaves(Snapshot(), owner, q) && V(pages[q].w[i])
      modifies pages, this`freelist, this`free, this`owner
      ensures ok && Valid() && IsTable(Snapshot(), owner, q) && NoLeaves(Snapshot(), owner, q)
      ensures Pruned(old(owner), owner, q)
      ensures owner[q] == old(owner)[q] && Retains(old(Snapshot()), Snapshot(), owner.Keys - {q})
      ensures pages[q] == Page(old(pages[q]).w[i := 0])
      decreases owner[q].level, 0
    {
      ghost var m, was := Snapshot(), owner;
      var e := pages[q].w[i];
      TableChild(m, was, q, i);
      ok := !Leaf(e);
      if ok {
        ok := Freewalk(Ppn(e));
        PrunedChild(was, owner, Ppn(e), q);
        ghost var n := Snapshot();
        assert pages[q] == m.pages[q];
        ClearEntry(q, i, was[Ppn(e)]);
        FewerLeaves(m, was, n, Snapshot(), owner, q, i);
      }
    }

    /** uvmfree: every page of the tree is free again; nothing else changes. */
    method Uvmfree(root: int, sz: int) returns (ok: bool)
      requires Valid() && IsRoot(owner, root) && 0 <= sz <= VPNS * PGSIZE
      requires Backed(Snapshot(), owner, root, 0, Up(sz)) && Unmapped(Snapshot(), root, Up(sz), VPNS)
      modifies pages, this`freelist, this`free, this`owner
      ensures ok && Valid() && owner == Outside(old(owner), root)
      ensures Apart(old(Snapshot()), old(owner), Snapshot(), owner, root)
    {
      ghost var m, a := Snapshot(), owner;
      UnmappingNone(m, a, root, 0, true);
      if sz > 0 {
        Uvmunmap(root, 0, Up(sz), true);
      }
      ghost var n, b := Snapshot(), owner;
      AllGone(m, a, n, b, root, Up(sz));
      ok := Freewalk(root);
      UnmappingApart(m, a, n, b, root, 0, Up(sz));
      FreedTree(n, b, Snapshot(), owner, root);
      ApartTrans(m, a, n, b, Snapshot(), owner, root);
    }

    /** uvmcreate: an empty page table; 0 if memory is out. */
    method Uvmcreate() returns (root: int)
      requires Valid()
      modifies pages, this`freelist, this`free, this`owner
      ensures Valid() && (root == 0 ==> Snapshot() == old(Snapshot()) && owner == old(owner))
      ensures (root == 0 <==> old(free) == []) && |free| >= |old(free)| - 1
      ensures root != 0 ==> root !in old(owner) && IsRoot(owner, root) && Unmapped(Snapshot(), root, 0, VPNS)
      ensures root != 0 ==> owner == old(owner)[root := Place(2, 0, 0)]
      ensures root != 0 ==> Managed(Snapshot(), root) && pages[..] == old(pages[..])[root := pages[root]]
    {
      root := Kalloc();
      if root != 0 {
        Zero(root);
        RootOwn(Snapshot(), owner, root);
        owner := owner[root := Place(2, 0, 0)];
      }
    }

    /** kinit: freerange frees every managed page. */
    constructor (first: int, n: int)
      requires 0 < first <= n
      ensures Valid() && owner == map[] && base == first && pages.Length == n && fresh(pages)
    {
      var page := Page(Fill(0, ENTRIES));
      base, freelist, owner, free := first, 0, map[], [];
      pages := new Page[n](_ => page);
      new;
      for p := first to n
        invariant ListOk() && fresh(pages) && owner == map[]
        invariant forall x :: x in free <==> first <= x < p
      {
        Kfree(p);
      }
    }
  }

  /** walk has come to table t at this level. */
  ghost predicate OnTheWay(m: Mem, owner: Account, root: int, v: int, level: int, t: int)
    requires Shape(m) && 0 <= v < VPNS
  {
    && IsRoot(owner, root) && IsTable(m, owner, t) && owner[t].level == level && Below(owner, t, root)
    && (level == 2 ==> t == root)
    && (level == 1 ==> t == Child(m, root, Px(2, v)))
    && (level == 0 ==> t == TableFor(m, root, v))
  }

  lemma Onward(m: Mem, a: Account, n: Mem, b: Account, root: int, v: int, level: int, t: int, p: int)
    requires Own(m, a) && Shape(n) && 0 <= v < VPNS && 1 <= level <= 2 && OnTheWay(m, a, root, v, level, t)
    requires SameTablesBut(m, n, a, t, Px(level, v)) && Keeps(m, a, n, b, root) && p == Child(n, t, Px(level, v))
    requires IsTable(n, b, p) && Below(b, p, root) && b[p].level == level - 1
    ensures OnTheWay(n, b, root, v, level - 1, p)
  {
    assert IsRoot(b, root);
    if level == 1 {
      TablePlace(m, a, root, v);
      assert IsEntry(m, a, root, Px(2, v));
    }
  }

  /** The next page of a run is still unmapped, and its memory still loose. */
  lemma NextToMap(m: Mem, a: Account, n: Mem, b: Account,
                  root: int, v: int, len: int, k: int, p: int, perm: int, own: bool, u: int, x: int)
    requires Shape(m) && Shape(n) && 0 <= v && 0 <= k < len && v + len <= VPNS && 0 <= p && 0 <= perm < 1024
    requires IsRoot(a, root) && Mapping(m, a, n, b, root, v, k, p, perm, own) && u == v + k && x == p + k
    requires Unmapped(m, root, v, v + len) && (own ==> Span(p, len) <= Loose(a))
    ensures IsRoot(b, root) && Lookup(n, root, u) == 0 && (own ==> x in Loose(b))
  {
    assert IsRoot(b, root) && Sees(m, a, n, b, root, u);
    assert Lookup(m, root, u) == 0;
    if own {
      assert x in Span(p, len) && x in Loose(a) && x !in Span(p, k);
      LooseIsOutside(a, x, root);
      assert x in Outside(b, root) && Outside(b, root)[x] == a[x];
    }
  }

  lemma LooseIsOutside(a: Account, x: int, root: int)
    requires IsRoot(a, root) && x in Loose(a)
    ensures x in Outside(a, root) && Outside(a, root)[x] == a[x]
  {}

  lemma NewLoose(m: Mem, a: Account, n: Mem, b: Account, root: int, p: int)
    requires IsRoot(a, root) && New(m, a, n, b, root, p)
    ensures p in b && b[p].level == LOOSE && Span(p, 1) <= Loose(b) && IsRoot(b, root)
  {
    assert IsRoot(b, root);
    assert p in Outside(b, root) && Outside(b, root)[p] == b[p];
  }

  /** mappages failed before its only page, which is therefore still loose. */
  lemma StillLoose(m: Mem, a: Account, n: Mem, b: Account, o: Mem, c: Account, root: int, u: int, p: int, perm: int)
    requires IsRoot(a, root) && New(m, a, n, b, root, p) && Own(o, c) && 0 <= p && 0 <= perm < 1024
    requires Mapping(n, b, o, c, root, u, 0, p, perm, true)
    ensures p in c && c[p].level == LOOSE && Managed(o, p)
  {
    assert p in Outside(c, root) && Outside(c, root)[p] == c[p];
    assert PageOk(o, c, p);
  }

  /** What uvmcopy could read, it still can, with the contents it had. */
  lemma StillReadable(m: Mem, a: Account, n: Mem, b: Account, dst: int, k: int, e: int)
    requires Own(m, a) && Shape(n) && 0 <= k <= VPNS && Growing(m, a, n, b, dst, 0, k) && Readable(m, a, e)
    ensures Readable(n, b, e) && 0 <= Ppn(e) < |m.pages| && n.pages[Ppn(e)] == m.pages[Ppn(e)]
  {
    if Ppn(e) in User(a) {
      assert PageOk(m, a, Ppn(e));
    }
  }

  /** A leaf entry owns its page in the account exactly when it does for its virtual page. */
  lemma OwnsLeaf(m: Mem, a: Account, root: int, v: int)
    requires Own(m, a) && IsRoot(a, root) && 0 <= v < VPNS && Lookup(m, root, v) != 0
    ensures var t := TableFor(m, root, v);
      && IsTable(m, a, t) && a[t].level == 0 && Lookup(m, root, v) == Word(m, t, Px(0, v))
      && Owns(m, a, t, Px(0, v)) == Owned(m, a, root, v)
  {
    TablePlace(m, a, root, v);
    var p := Ppn(Lookup(m, root, v));
    if p in a {
      assert PageOk(m, a, p);
    }
  }

  lemma ClearLeafOwn(m: Mem, n: Mem, a: Account, q: int, i: int, p: int, owns: bool, doFree: bool)
    requires Own(m, a) && IsEntry(m, a, q, i) && a[q].level == 0 && V(Word(m, q, i)) && p == Ppn(Word(m, q, i))
    requires owns == Owns(m, a, q, i) && (doFree ==> owns)
    requires SameTablesBut(m, n, if owns then a - {p} else a, q, i) && !V(Word(n, q, i))
    ensures Own(n, Drop(a, if owns then {p} else {}, doFree))
  {
    if owns {
      assert PageOk(m, a, p);
      DetachOwn(m, n, a, q, i, p, !doFree);
      assert !doFree ==> Drop(a, {p}, doFree) == a[p := Place(LOOSE, 0, 0)];
    } else {
      LeafOwn(m, n, a, q, i);
      assert Drop(a, {}, doFree) == a;
    }
  }

  lemma TableNotFree(m: Mem, a: Account, q: int, i: int, p: int, free: seq<int>, owns: bool, doFree: bool)
    requires Own(m, a) && IsEntry(m, a, q, i) && a[q].level == 0 && V(Word(m, q, i)) && p == Ppn(Word(m, q, i))
    requires owns == Owns(m, a, q, i)
    requires if doFree then owns && free != [] && free[0] == p && p !in free[1..] && Partition(m, a, free[1..])
             else Partition(m, a, free)
    ensures q !in free && (owns ==> q != p && Managed(m, p) && a[p].level == DATA)
  {
    assert PageOk(m, a, q) && (owns ==> PageOk(m, a, p));
    assert doFree ==> q !in free[1..] && free == [p] + free[1..];
  }

  lemma DropPartition(m: Mem, n: Mem, a: Account, free: seq<int>, p: int, owns: bool, doFree: bool)
    requires n.base == m.base && |n.pages| == |m.pages| && (owns ==> p in a && Managed(m, p))
    requires if doFree then owns && free != [] && free[0] == p && p !in free[1..] && Partition(m, a, free[1..])
             else Partition(m, a, free)
    ensures Partition(n, Drop(a, if owns then {p} else {}, doFree), free)
  {
    if doFree {
      HeadPartition(m, a, free);
    } else {
      SamePartition(m, a, n, Drop(a, if owns then {p} else {}, doFree), free);
    }
  }

  /** PGROUNDUP(sz) / PGSIZE */
  function Up(sz: int): (v: int) {
    (sz + PGSIZE - 1) / PGSIZE
  }

  /** Up(sz) is the smallest number of pages that holds sz bytes. */
  lemma UpRounds(sz: int, v: int)
    ensures sz <= v * PGSIZE <==> Up(sz) <= v
  {}

  /** PTE_R | PTE_U | xperm */
  function OrRU(xperm: int): (perm: int)
    requires 0 <= xperm < 1024
    ensures 0 <= perm < 1024 && Leaf(perm)
  {
    xperm + (if xperm / 2 % 2 == 0 then 2 else 0) + (if xperm / 16 % 2 == 0 then 16 else 0)
  }

  /** The number with these bits, least significant last, and high above them. */
  function Bits(high: int, b4: int, b3: int, b2: int, b1: int, b0: int): (x: int) {
    32 * high + 16 * b4 + 8 * b3 + 4 * b2 + 2 * b1 + b0
  }

  predicate Bit(b: int) {
    b == 0 || b == 1
  }

  lemma BitsBack(high: int, b4: int, b3: int, b2: int, b1: int, b0: int)
    requires Bit(b4) && Bit(b3) && Bit(b2) && Bit(b1) && Bit(b0)
    ensures var x := Bits(high, b4, b3, b2, b1, b0);
      x % 2 == b0 && x / 2 % 2 == b1 && x / 4 % 2 == b2 && x / 8 % 2 == b3 && x / 16 % 2 == b4 && x / 32 == high
  {
    var x := Bits(high, b4, b3, b2, b1, b0);
    assert x / 2 == 16 * high + 8 * b4 + 4 * b3 + 2 * b2 + b1;
    assert x / 4 == 8 * high + 4 * b4 + 2 * b3 + b2;
    assert x / 8 == 4 * high + 2 * b4 + b3;
    assert x / 16 == 2 * high + b4;
  }

  /** Readable and for the user, and otherwise as asked for, flag by flag. */
  lemma OrRUBits(xperm: int)
    requires 0 <= xperm < 1024
    ensures var perm := OrRU(xperm);
      && perm / 2 % 2 == 1 && perm / 16 % 2 == 1 && perm % 2 == xperm % 2
      && perm / 4 % 2 == xperm / 4 % 2 && perm / 8 % 2 == xperm / 8 % 2 && perm / 32 == xperm / 32
  {
    var high, b4, b3, b2, b1, b0 := AsBits(xperm);
    OrIsBits(xperm, high, b4, b3, b2, b1, b0);
    BitsBack(high, b4, b3, b2, b1, b0);
    BitsBack(high, 1, b3, b2, 1, b0);
  }

  lemma AsBits(x: int) returns (high: int, b4: int, b3: int, b2: int, b1: int, b0: int)
    ensures x == Bits(high, b4, b3, b2, b1, b0) && Bit(b4) && Bit(b3) && Bit(b2) && Bit(b1) && Bit(b0)
  {
    var x1 := x / 2;
    var x2 := x1 / 2;
    var x3 := x2 / 2;
    var x4 := x3 / 2;
    high, b4, b3, b2, b1, b0 := x4 / 2, x4 % 2, x3 % 2, x2 % 2, x1 % 2, x % 2;
  }

  lemma OrIsBits(xperm: int, high: int, b4: int, b3: int, b2: int, b1: int, b0: int)
    requires 0 <= xperm < 1024 && xperm == Bits(high, b4, b3, b2, b1, b0)
    requires Bit(b4) && Bit(b3) && Bit(b2) && Bit(b1) && Bit(b0)
    ensures OrRU(xperm) == Bits(high, 1, b3, b2, 1, b0)
  {
    BitsBack(high, b4, b3, b2, b1, b0);
  }

  /** The tree under entry i of q is gone and the entry cleared. */
  lemma FewerLeaves(m: Mem, a: Account, n: Mem, o: Mem, b: Account, q: int, i: int)
    requires Shape(m) && Shape(n) && Alike(m, o) && 0 <= q < |m.pages| && 0 <= i < ENTRIES
    requires NoLeaves(m, a, q) && Pruned(a, b, q) && Retains(m, n, b.Keys)
    requires o.pages == n.pages[q := Page(n.pages[q].w[i := 0])] && q in b
    ensures NoLeaves(o, b, q)
  {
    forall t, j | IsEntry(o, b, t, j) && V(Word(o, t, j)) ensures V(Word(m, t, j)) {
      assert t in b.Keys && n.pages[t] == m.pages[t];
    }
    NoLeavesLess(m, a, o, b, q);
  }

  lemma SamePartition(m: Mem, a: Account, n: Mem, b: Account, free: seq<int>)
    requires Partition(m, a, free) && b.Keys == a.Keys && n.base == m.base && |n.pages| == |m.pages|
    ensures Partition(n, b, free)
  {
    assert forall p :: p in b <==> p in b.Keys;
    assert forall p :: p in a <==> p in a.Keys;
  }

  lemma HeadPartition(m: Mem, owner: Account, free: seq<int>)
    requires free != [] && Partition(m, owner, free[1..]) && Managed(m, free[0]) && free[0] in owner
    ensures forall n: Mem :: n.base == m.base && |n.pages| == |m.pages| ==> Partition(n, owner - {free[0]}, free)
  {
    assert forall p :: p in free <==> p == free[0] || p in free[1..];
  }

  lemma TailPartition(m: Mem, owner: Account, free: seq<int>)
    requires free != [] && Partition(m, owner, free) && free[0] !in free[1..]
    ensures forall n: Mem :: n.base == m.base && |n.pages| == |m.pages| ==>
      Partition(n, owner[free[0] := Place(LOOSE, 0, 0)], free[1..])
  {
    assert forall p :: p in free <==> p == free[0] || p in free[1..];
  }
}
