/** What mapping, unmapping, growing and copying a range of pages do to the
    translations, the contents and the account (kernel/vm.c), on values. */
module PageRuns {
  import opened PageTable
  import opened PageTree

  /** The pages that are not page tables. */
  function User(owner: Account): (s: set<int>) {
    set x | x in owner && owner[x].level < 0
  }

  function Loose(owner: Account): (s: set<int>) {
    set x | x in owner && owner[x].level == LOOSE
  }

  ghost predicate Alike(m: Mem, n: Mem) {
    Shape(m) && Shape(n) && n.base == m.base && |n.pages| == |m.pages|
  }

  /** The pages of stay, and those the allocator does not manage, are as before. */
  ghost predicate Retains(m: Mem, n: Mem, stay: set<int>) {
    && |n.pages| == |m.pages|
    && forall x {:trigger n.pages[x]} ::
         0 <= x < |m.pages| && (x in stay || x < m.base) ==> n.pages[x] == m.pages[x]
  }

  /** Page u of r is translated as before, and owned as before. */
  ghost predicate Sees(m: Mem, a: Account, n: Mem, b: Account, r: int, u: int)
    requires Shape(m) && Shape(n) && 0 <= u < VPNS
  {
    Lookup(n, r, u) == Lookup(m, r, u) && Owned(n, b, r, u) == Owned(m, a, r, u)
  }

  /** Only the pages lo .. hi - 1 of root may be translated differently. */
  ghost predicate Remap(m: Mem, a: Account, n: Mem, b: Account, root: int, lo: int, hi: int) {
    && Alike(m, n) && (forall r {:trigger IsRoot(b, r)} :: IsRoot(a, r) ==> IsRoot(b, r))
    && (forall r, u {:trigger Sees(m, a, n, b, r, u)} {:trigger Lookup(n, r, u)} ::
          IsRoot(a, r) && 0 <= u < VPNS && !(r == root && lo <= u < hi) ==> Sees(m, a, n, b, r, u))
  }

  lemma RemapTrans(m: Mem, a: Account, n: Mem, b: Account, o: Mem, c: Account,
                   root: int, lo: int, mid: int, hi: int)
    requires lo <= mid <= hi && Remap(m, a, n, b, root, lo, mid) && Remap(n, b, o, c, root, mid, hi)
    ensures Remap(m, a, o, c, root, lo, hi)
  {
    forall r | IsRoot(a, r) ensures IsRoot(c, r) {
      assert IsRoot(b, r);
    }
    forall r, u | IsRoot(a, r) && 0 <= u < VPNS && !(r == root && lo <= u < hi) ensures Sees(m, a, o, c, r, u) {
      assert IsRoot(b, r) && Sees(m, a, n, b, r, u) && Sees(n, b, o, c, r, u);
    }
  }

  lemma RemapMore(m: Mem, a: Account, n: Mem, b: Account, root: int, lo: int, hi: int)
    requires Remap(m, a, n, b, root, 0, 0) || Remap(m, a, n, b, root, lo, lo)
    ensures Remap(m, a, n, b, root, lo, hi)
  {
    forall r, u | IsRoot(a, r) && 0 <= u < VPNS ensures Sees(m, a, n, b, r, u) {}
  }

  // ---- steps

  /** The new account only has new table pages, all in root's tree. */
  ghost predicate Keeps(m: Mem, a: Account, n: Mem, b: Account, root: int) {
    && Remap(m, a, n, b, root, 0, 0) && Retains(m, n, User(a)) && Outside(b, root) == Outside(a, root)
    && (forall x {:trigger x in a} :: x in a ==> x in b && b[x] == a[x])
    && (forall x {:trigger x in b} :: x in b && x !in a ==> 0 <= b[x].level <= 1)
  }

  lemma KeepsAll(m: Mem, a: Account, root: int)
    requires Shape(m)
    ensures Keeps(m, a, m, a, root)
  {}

  lemma KeepsTrans(m: Mem, a: Account, n: Mem, b: Account, o: Mem, c: Account, root: int)
    requires Keeps(m, a, n, b, root) && Keeps(n, b, o, c, root)
    ensures Keeps(m, a, o, c, root)
  {
    RemapTrans(m, a, n, b, o, c, root, 0, 0, 0);
    KeepsUser(m, a, n, b, root);
    forall x | x in a ensures x in c && c[x] == a[x] {
      assert x in b;
    }
    forall x | x in c && x !in a ensures 0 <= c[x].level <= 1 {
      assert x in b ==> c[x] == b[x];
    }
  }

  lemma KeepsUser(m: Mem, a: Account, n: Mem, b: Account, root: int)
    requires Keeps(m, a, n, b, root)
    ensures User(b) == User(a)
  {
    forall x: int ensures x in User(b) <==> x in User(a) {
      assert x in b && x !in a ==> 0 <= b[x].level <= 1;
      assert x in a ==> x in b && b[x] == a[x];
    }
  }

  /** walk's new table: p was free, is zeroed in m1 and entered in n. */
  lemma NewTableKeeps(m: Mem, m1: Mem, n: Mem, owner: Account, b: Account, root: int, q: int, i: int, p: int, x: Place)
    requires Own(m, owner) && p !in owner && Managed(m, p) && IsEntry(m, owner, q, i) && owner[q].level > 0
    requires IsRoot(owner, root) && Below(owner, q, root) && !V(Word(m, q, i)) && x == Place(owner[q].level - 1, q, i)
    requires m1.base == m.base && |m1.pages| == |m.pages| && m1.pages == m.pages[p := m1.pages[p]]
    requires Own(m1, owner[p := Place(LOOSE, 0, 0)]) && NoEntries(m1, p)
    requires n.base == m.base && |n.pages| == |m.pages| && n.pages == m1.pages[q := n.pages[q]] && Shape(n)
    requires SameTablesBut(m1, n, owner[p := Place(LOOSE, 0, 0)], q, i) && Child(n, q, i) == p
    requires b == Entered(owner[p := Place(LOOSE, 0, 0)], p, x, true)
    ensures Keeps(m, owner, n, b, root) && Below(b, p, root)
    ensures SameTablesBut(m, n, owner, q, i)
  {
    assert PageOk(m, owner, q);
    forall r, j | IsEntry(m, owner, r, j) && !(r == q && j == i) ensures Word(n, r, j) == Word(m, r, j) {
      assert IsEntry(m1, owner[p := Place(LOOSE, 0, 0)], r, j);
      assert Word(m1, r, j) == Word(m, r, j);
    }
    NoEntriesSame(m1, n, p);
    assert b == owner[p := x];
    forall r, u | IsRoot(owner, r) && 0 <= u < VPNS ensures Sees(m, owner, n, b, r, u) {
      GrowLookup(m, n, owner, q, i, p, r, u);
    }
    NewTableOutside(m, m1, owner, root, q, p, x);
  }

  lemma NewTableOutside(m: Mem, m1: Mem, owner: Account, root: int, q: int, p: int, x: Place)
    requires Own(m, owner) && p !in owner && IsRoot(owner, root) && q in owner && Below(owner, q, root)
    requires 0 <= x.level <= 1 && x.table == q && owner[q].level == x.level + 1
    requires Own(m1, owner[p := Place(LOOSE, 0, 0)])
    ensures Outside(owner[p := x], root) == Outside(owner, root) && Below(owner[p := x], p, root)
  {
    var mid := owner[p := Place(LOOSE, 0, 0)];
    LooseOutside(m, owner, p, root);
    DifferAt(m, owner, mid, p);
    BelowFrame(owner, mid, {p}, q, root);
    AttachOutside(m1, mid, q, p, x, root);
    assert mid[p := x] == owner[p := x];
    assert Outside(owner, root)[p := Place(LOOSE, 0, 0)] - {p} == Outside(owner, root);
  }

  lemma NoEntriesSame(m: Mem, n: Mem, p: int)
    requires Shape(m) && Shape(n) && 0 <= p < |m.pages| == |n.pages| && n.pages[p] == m.pages[p]
    ensures NoEntries(n, p) == NoEntries(m, p)
  {
    assert forall i :: 0 <= i < ENTRIES ==> Word(n, p, i) == Word(m, p, i);
  }

  /** The child of an entry on the way down. */
  lemma ChildPlace(m: Mem, owner: Account, q: int, i: int, root: int)
    requires Own(m, owner) && IsEntry(m, owner, q, i) && owner[q].level > 0 && Below(owner, q, root)
    ensures V(Word(m, q, i)) ==>
      var p := Ppn(Word(m, q, i));
      && p == Child(m, q, i) && p != -1 && IsTable(m, owner, p)
      && owner[p].level == owner[q].level - 1 && Below(owner, p, root)
  {
    assert EntryOk(m, owner, q, i) && PageOk(m, owner, q);
    if V(Word(m, q, i)) {
      assert PageOk(m, owner, Ppn(Word(m, q, i)));
    }
  }

  /** The account after an entry for p is stored that owns p, or does not. */
  function Entered(a: Account, p: int, x: Place, own: bool): (b: Account) {
    if own then a[p := x] else a
  }

  lemma StoreOwn(m: Mem, n: Mem, a: Account, q: int, i: int, p: int, own: bool)
    requires Own(m, a) && IsEntry(m, a, q, i) && SameTablesBut(m, n, a, q, i) && !V(Word(m, q, i))
    requires Refers(n, q, i, p, a[q].level == 0)
    requires if own then p in a && a[p].level == LOOSE else a[q].level == 0
    requires a[q].level > 0 ==> NoEntries(n, p)
    requires a[q].level == 2 ==> i < ROOTENTRIES
    ensures Own(n, Entered(a, p, Place(a[q].level - 1, q, i), own))
  {
    if own {
      AttachOwn(m, n, a, q, i, p);
    } else {
      LeafOwn(m, n, a, q, i);
    }
  }

  // ---- mappages

  /** Page v of root is mapped to p. */
  ghost predicate MapsOne(m: Mem, a: Account, n: Mem, b: Account, root: int, v: int, p: int, perm: int, own: bool)
    requires 0 <= v < VPNS && 0 <= p && 0 <= perm < 1024
  {
    && Remap(m, a, n, b, root, v, v + 1) && Retains(m, n, User(a)) && User(b) == User(a)
    && Outside(b, root) == (if own then Outside(a, root) - {p} else Outside(a, root))
    && Lookup(n, root, v) == Entry(p, perm) && Owned(n, b, root, v) == own
  }

  lemma MapSees(m: Mem, a: Account, n: Mem, b: Account, root: int, v: int, t: int, p: int, perm: int, own: bool)
    requires Own(m, a) && IsRoot(a, root) && 0 <= v < VPNS && 0 <= p && 0 <= perm < 1024
    requires t == TableFor(m, root, v) && IsTable(m, a, t) && a[t].level == 0 && !V(Word(m, t, Px(0, v)))
    requires b == Entered(a, p, Place(DATA, t, Px(0, v)), own) && (own ==> p in a && a[p].level == LOOSE)
    requires SameTablesBut(m, n, a, t, Px(0, v)) && n.pages == m.pages[t := n.pages[t]]
    requires Word(n, t, Px(0, v)) == Entry(p, perm)
    ensures MapsOne(m, a, n, b, root, v, p, perm, own)
  {
    TablePlace(m, a, root, v);
    LeafLookup(m, n, a, root, v, root, v);
    assert p in a ==> PageOk(m, a, p);
    forall r, u | IsRoot(a, r) && 0 <= u < VPNS && !(r == root && u == v) ensures Sees(m, a, n, b, r, u) {
      LeafLookup(m, n, a, root, v, r, u);
      if TableFor(m, r, u) == t && Px(0, u) == Px(0, v) {
        EntriesDiffer(m, a, r, u, root, v);
      }
    }
    if own {
      assert Below(a, a[t].table, root) && Below(a, t, root);
      AttachOutside(m, a, t, p, Place(DATA, t, Px(0, v)), root);
    }
  }

  lemma MapsLater(m: Mem, a: Account, n: Mem, b: Account, o: Mem, c: Account,
                  root: int, v: int, p: int, perm: int, own: bool)
    requires 0 <= v < VPNS && 0 <= p && 0 <= perm < 1024 && Keeps(m, a, n, b, root)
    requires MapsOne(n, b, o, c, root, v, p, perm, own)
    ensures MapsOne(m, a, o, c, root, v, p, perm, own)
  {
    KeepsUser(m, a, n, b, root);
    RemapMore(m, a, n, b, root, v, v);
    RemapTrans(m, a, n, b, o, c, root, v, v, v + 1);
  }

  function Span(p: int, n: int): (s: set<int>)
    ensures forall x :: x in s <==> p <= x < p + n
  {
    if n <= 0 then {} else Span(p, n - 1) + {p + n - 1}
  }

  /** The n pages from v on are the pages from p on. */
  ghost predicate MappedRun(m: Mem, owner: Account, root: int, v: int, n: int, p: int, perm: int, own: bool)
    requires Shape(m) && 0 <= p && 0 <= perm < 1024
  {
    forall u {:trigger MappedAt(m, owner, root, v, u, p, perm, own)} ::
      v <= u < v + n && 0 <= u < VPNS ==> MappedAt(m, owner, root, v, u, p, perm, own)
  }

  ghost predicate MappedAt(m: Mem, owner: Account, root: int, v: int, u: int, p: int, perm: int, own: bool)
    requires Shape(m) && v <= u && 0 <= u < VPNS && 0 <= p && 0 <= perm < 1024
  {
    Lookup(m, root, u) == Entry(p + u - v, perm) && Owned(m, owner, root, u) == own
  }

  /** mappages after k pages. */
  ghost predicate Mapping(m: Mem, a: Account, n: Mem, b: Account,
                          root: int, v: int, k: int, p: int, perm: int, own: bool)
    requires Shape(n) && 0 <= p && 0 <= perm < 1024
  {
    && Remap(m, a, n, b, root, v, v + k) && Retains(m, n, User(a)) && User(b) == User(a)
    && Outside(b, root) == (if own then Outside(a, root) - Span(p, k) else Outside(a, root))
    && MappedRun(n, b, root, v, k, p, perm, own)
  }

  lemma MappingNone(m: Mem, a: Account, root: int, v: int, p: int, perm: int, own: bool)
    requires Shape(m) && 0 <= p && 0 <= perm < 1024
    ensures Mapping(m, a, m, a, root, v, 0, p, perm, own)
  {
    assert Outside(a, root) - Span(p, 0) == Outside(a, root);
  }

  lemma MappingStop(m: Mem, a: Account, n: Mem, b: Account, o: Mem, c: Account,
                    root: int, v: int, k: int, p: int, perm: int, own: bool)
    requires Shape(n) && 0 <= p && 0 <= perm < 1024 && 0 <= v && 0 <= k && IsRoot(b, root)
    requires Mapping(m, a, n, b, root, v, k, p, perm, own) && Keeps(n, b, o, c, root)
    ensures Mapping(m, a, o, c, root, v, k, p, perm, own)
  {
    RemapMore(n, b, o, c, root, v + k, v + k);
    RemapTrans(m, a, n, b, o, c, root, v, v + k, v + k);
    KeepsUser(n, b, o, c, root);
    RunKept(n, b, o, c, root, v, k, p, perm, own, 0, 0);
  }

  lemma RunKept(n: Mem, b: Account, o: Mem, c: Account,
                root: int, v: int, k: int, p: int, perm: int, own: bool, lo: int, hi: int)
    requires Shape(n) && 0 <= p && 0 <= perm < 1024 && IsRoot(b, root) && MappedRun(n, b, root, v, k, p, perm, own)
    requires Remap(n, b, o, c, root, lo, hi) && (hi <= lo || v + k <= lo)
    ensures MappedRun(o, c, root, v, k, p, perm, own)
  {
    forall u | v <= u < v + k && 0 <= u < VPNS
      ensures MappedAt(o, c, root, v, u, p, perm, own)
    {
      assert Sees(n, b, o, c, root, u) && MappedAt(n, b, root, v, u, p, perm, own);
    }
  }

  lemma MappingStep(m: Mem, a: Account, n: Mem, b: Account, o: Mem, c: Account,
                    root: int, v: int, k: int, p: int, perm: int, own: bool, u: int, x: int)
    requires Shape(n) && 0 <= p && 0 <= perm < 1024 && 0 <= k && u == v + k && x == p + k && 0 <= u < VPNS
    requires IsRoot(b, root) && Mapping(m, a, n, b, root, v, k, p, perm, own)
    requires MapsOne(n, b, o, c, root, u, x, perm, own)
    ensures Mapping(m, a, o, c, root, v, k + 1, p, perm, own)
  {
    RemapTrans(m, a, n, b, o, c, root, v, u, u + 1);
    RunKept(n, b, o, c, root, v, k, p, perm, own, u, u + 1);
    RunMore(o, c, root, v, k, p, perm, own, u, x);
    SpanLess(Outside(a, root), p, k);
  }

  lemma RunMore(m: Mem, owner: Account, root: int, v: int, k: int, p: int, perm: int, own: bool, u: int, x: int)
    requires Shape(m) && 0 <= p && 0 <= perm < 1024 && 0 <= k && u == v + k && x == p + k && 0 <= u < VPNS
    requires MappedRun(m, owner, root, v, k, p, perm, own)
    requires Lookup(m, root, u) == Entry(x, perm) && Owned(m, owner, root, u) == own
    ensures MappedRun(m, owner, root, v, k + 1, p, perm, own)
  {
    assert MappedAt(m, owner, root, v, u, p, perm, own);
  }

  lemma SpanLess(a: Account, p: int, k: int)
    requires 0 <= k
    ensures a - Span(p, k) - {p + k} == a - Span(p, k + 1)
  {}

  // ---- uvmunmap

  /** Pages lo .. hi - 1 of root are gone, and with free the memory behind them. */
  ghost predicate Unmapping(m: Mem, a: Account, n: Mem, b: Account, root: int, lo: int, hi: int, free: bool)
    requires Shape(m) && Shape(n) && 0 <= lo && hi <= VPNS
  {
    && Remap(m, a, n, b, root, lo, hi) && Unmapped(n, root, lo, hi) && Retains(m, n, User(b))
    && b == Drop(a, Targets(m, a, root, lo, hi), free)
  }

  lemma UnmappingNone(m: Mem, a: Account, root: int, v: int, free: bool)
    requires Shape(m) && 0 <= v <= VPNS
    ensures Unmapping(m, a, m, a, root, v, v, free)
  {
    assert Drop(a, {}, free) == a;
  }

  /** Nothing was mapped at v. */
  lemma UnmapsNothing(m: Mem, a: Account, root: int, v: int, free: bool)
    requires Shape(m) && 0 <= v < VPNS && Lookup(m, root, v) == 0
    ensures Unmapping(m, a, m, a, root, v, v + 1, free)
  {
    assert Targets(m, a, root, v, v) == {};
    assert Drop(a, {}, free) == a;
  }

  lemma UnmapSees(m: Mem, a: Account, n: Mem, b: Account, root: int, v: int, t: int, p: int, free: bool)
    requires Own(m, a) && Own(n, b) && IsRoot(a, root) && 0 <= v < VPNS
    requires t == TableFor(m, root, v) && IsTable(m, a, t) && V(Word(m, t, Px(0, v))) && p == Ppn(Word(m, t, Px(0, v)))
    requires SameTablesBut(m, n, a, t, Px(0, v)) && !V(Word(n, t, Px(0, v))) && |n.pages| == |m.pages|
    requires b == Drop(a, if Owned(m, a, root, v) then {p} else {}, free)
    requires if free then Owned(m, a, root, v) && Managed(m, p) && n.pages == m.pages[p := n.pages[p]][t := n.pages[t]]
             else n.pages == m.pages[t := n.pages[t]]
    ensures Unmapping(m, a, n, b, root, v, v + 1, free)
  {
    TablePlace(m, a, root, v);
    LeafLookup(m, n, a, root, v, root, v);
    assert Targets(m, a, root, v, v) == {};
    assert Targets(m, a, root, v, v + 1) == if Owned(m, a, root, v) then {p} else {};
    forall r, u | IsRoot(a, r) && 0 <= u < VPNS && !(r == root && u == v) ensures Sees(m, a, n, b, r, u) {
      LeafLookup(m, n, a, root, v, r, u);
      if TableFor(m, r, u) == t && Px(0, u) == Px(0, v) {
        EntriesDiffer(m, a, r, u, root, v);
      }
    }
  }

  lemma UnmappingStep(m: Mem, a: Account, n: Mem, b: Account, o: Mem, c: Account, root: int, lo: int, k: int,
                      free: bool)
    requires Shape(m) && Shape(n) && 0 <= lo <= k < VPNS && Unmapping(m, a, n, b, root, lo, k, free) && IsRoot(a, root)
    requires Shape(o) && Unmapping(n, b, o, c, root, k, k + 1, free)
    ensures Unmapping(m, a, o, c, root, lo, k + 1, free)
  {
    RemapTrans(m, a, n, b, o, c, root, lo, k, k + 1);
    assert Sees(m, a, n, b, root, k);
    assert Targets(n, b, root, k, k) == {};
    assert Targets(n, b, root, k, k + 1) == Target(m, a, root, k);
    DropTwice(a, Targets(m, a, root, lo, k), Target(m, a, root, k), free);
    assert Targets(m, a, root, lo, k + 1) == Targets(m, a, root, lo, k) + Target(m, a, root, k);
    UnmappedStep(n, b, o, c, root, lo, k);
    assert User(c) <= User(b) by { DropUser(b, Targets(n, b, root, k, k + 1), free); }
  }

  lemma DropUser(a: Account, s: set<int>, free: bool)
    requires forall x :: x in s && x in a ==> a[x].level < 0
    ensures User(Drop(a, s, free)) <= User(a)
  {
    forall x | x in User(Drop(a, s, free)) ensures x in User(a) {
      assert x in a && (x !in s ==> Drop(a, s, free)[x] == a[x]);
    }
  }

  lemma UnmappedStep(n: Mem, b: Account, o: Mem, c: Account, root: int, lo: int, k: int)
    requires Shape(n) && Shape(o) && 0 <= lo <= k < VPNS && IsRoot(b, root)
    requires Unmapped(n, root, lo, k) && Remap(n, b, o, c, root, k, k + 1) && Unmapped(o, root, k, k + 1)
    ensures Unmapped(o, root, lo, k + 1)
  {
    forall u | lo <= u < k + 1 ensures Lookup(o, root, u) == 0 {
      if u < k {
        assert Sees(n, b, o, c, root, u);
        assert Lookup(n, root, u) == 0;
      }
    }
  }

  // ---- uvmalloc

  predicate ZeroPage(p: Page) {
    |p.w| == ENTRIES && forall i :: 0 <= i < ENTRIES ==> p.w[i] == 0
  }

  /** p is allocated and in no table; users see no difference. */
  ghost predicate New(m: Mem, a: Account, n: Mem, b: Account, root: int, p: int) {
    && Remap(m, a, n, b, root, 0, 0) && Retains(m, n, User(a)) && 0 < p && p !in a
    && User(b) == User(a) + {p} && Outside(b, root) == Outside(a, root)[p := Place(LOOSE, 0, 0)]
  }

  lemma LooseSees(m: Mem, a: Account, n: Mem, b: Account, root: int, p: int)
    requires Own(m, a) && IsRoot(a, root) && Managed(m, p) && p !in a && b == a[p := Place(LOOSE, 0, 0)] && Shape(n)
    requires n.base == m.base && |n.pages| == |m.pages| && n.pages == m.pages[p := n.pages[p]]
    ensures New(m, a, n, b, root, p)
  {
    forall q, i | IsEntry(m, a, q, i) ensures Word(n, q, i) == Word(m, q, i) {}
    forall r, u | IsRoot(a, r) && 0 <= u < VPNS ensures Sees(m, a, n, b, r, u) {
      SameLookup(m, n, a, r, u);
    }
    LooseOutside(m, a, p, root);
  }

  /** Page u of root is now the new page p with these contents; or, with p == 0,
      nothing a user sees has changed. */
  ghost predicate GrowsOne(m: Mem, a: Account, n: Mem, b: Account, root: int, u: int, p: int, perm: int, contents: Page)
    requires Shape(m) && Shape(n) && 0 <= u < VPNS && 0 <= perm < 1024
  {
    && Retains(m, n, User(a)) && Outside(b, root) == Outside(a, root)
    && if p == 0 then User(b) == User(a) && Remap(m, a, n, b, root, u, u)
       else
         && 0 < p && p !in a && User(b) == User(a) + {p} && Remap(m, a, n, b, root, u, u + 1)
         && Lookup(n, root, u) == Entry(p, perm) && Owned(n, b, root, u) && p < |n.pages| && n.pages[p] == contents
  }

  lemma GrowsNone(m: Mem, a: Account, root: int, u: int, perm: int, z: Page)
    requires Shape(m) && 0 <= u < VPNS && 0 <= perm < 1024
    ensures GrowsOne(m, a, m, a, root, u, 0, perm, z)
  {}

  /** Memory ran out and the new page was freed again. */
  lemma DropSees(m: Mem, a: Account, m1: Mem, a1: Account, m2: Mem, a2: Account, n: Mem, b: Account,
                 root: int, u: int, p: int, perm: int, z: Page)
    requires IsRoot(a, root) && 0 <= u < VPNS && 0 <= p && 0 <= perm < 1024
    requires Own(m2, a2) && New(m, a, m1, a1, root, p) && Mapping(m1, a1, m2, a2, root, u, 0, p, perm, true)
    requires p in a2 && a2[p].level == LOOSE && b == a2 - {p} && SameTables(m2, n, b)
    requires |n.pages| == |m2.pages| && Managed(m2, p) && n.pages == m2.pages[p := n.pages[p]]
    ensures GrowsOne(m, a, n, b, root, u, 0, perm, z)
  {
    assert User(b) == User(a2) - {p};
    FreedSees(m2, a2, n, b, root, p);
    RemapMore(m, a, m1, a1, root, u, u);
    RemapTrans(m, a, m1, a1, m2, a2, root, u, u, u);
    RemapMore(m2, a2, n, b, root, u, u);
    RemapTrans(m, a, m2, a2, n, b, root, u, u, u);
    assert Outside(a, root)[p := Place(LOOSE, 0, 0)] - Span(p, 0) - {p} == Outside(a, root);
  }

  /** A loose page is freed. */
  lemma FreedSees(m: Mem, a: Account, n: Mem, b: Account, root: int, p: int)
    requires Own(m, a) && p in a && a[p].level == LOOSE && b == a - {p} && SameTables(m, n, b) && IsRoot(a, root)
    ensures Remap(m, a, n, b, root, 0, 0) && Outside(b, root) == Outside(a, root) - {p}
  {
    forall q, i | IsEntry(m, a, q, i) ensures Word(n, q, i) == Word(m, q, i) {
      assert IsEntry(m, b, q, i);
    }
    forall r, v | IsRoot(a, r) && 0 <= v < VPNS ensures Sees(m, a, n, b, r, v) {
      SameLookup(m, n, a, r, v);
    }
    FreeOutside(m, a, p, root);
  }

  lemma GrowSeen(m: Mem, a: Account, m1: Mem, a1: Account, n: Mem, b: Account, root: int, u: int, p: int, perm: int)
    requires 0 <= u < VPNS && 0 <= p && 0 <= perm < 1024 && IsRoot(a, root) && New(m, a, m1, a1, root, p)
    requires p < |m1.pages|
    requires Shape(n) && Mapping(m1, a1, n, b, root, u, 1, p, perm, true)
    ensures GrowsOne(m, a, n, b, root, u, p, perm, m1.pages[p])
  {
    RemapMore(m, a, m1, a1, root, u, u);
    RemapTrans(m, a, m1, a1, n, b, root, u, u, u + 1);
    assert MappedAt(n, b, root, u, u, p, perm, true);
    assert p in User(a1) && n.pages[p] == m1.pages[p];
    assert Outside(a, root)[p := Place(LOOSE, 0, 0)] - Span(p, 1) == Outside(a, root);
  }

  /** Pages lo .. hi - 1 of root have new memory behind them; nothing else changed for users. */
  ghost predicate Growing(m: Mem, a: Account, n: Mem, b: Account, root: int, lo: int, hi: int)
    requires Shape(m) && Shape(n) && 0 <= lo && hi <= VPNS
  {
    && Retains(m, n, User(a)) && Outside(b, root) == Outside(a, root) && Remap(m, a, n, b, root, lo, hi)
    && User(a) == User(b) - Targets(n, b, root, lo, hi) && Backed(n, b, root, lo, hi)
  }

  /** Users see no change: same translations, same pages with the same contents. */
  ghost predicate NothingNew(m: Mem, a: Account, n: Mem, b: Account, root: int) {
    && Retains(m, n, User(a)) && Outside(b, root) == Outside(a, root)
    && User(b) == User(a) && Remap(m, a, n, b, root, 0, 0)
  }

  ghost predicate ZeroRun(m: Mem, root: int, lo: int, hi: int, perm: int)
    requires Shape(m) && 0 <= perm < 1024
  {
    forall u {:trigger ZeroAt(m, root, u, perm)} :: lo <= u < hi && 0 <= u < VPNS ==> ZeroAt(m, root, u, perm)
  }

  ghost predicate ZeroAt(m: Mem, root: int, u: int, perm: int)
    requires Shape(m) && 0 <= u < VPNS && 0 <= perm < 1024
  {
    var e := Lookup(m, root, u);
    e != 0 && Flags(e) == perm + (1 - perm % 2) && 0 <= Ppn(e) < |m.pages| && ZeroPage(m.pages[Ppn(e)])
  }

  lemma GrowingNone(m: Mem, a: Account, root: int, lo: int, perm: int)
    requires Shape(m) && 0 <= lo <= VPNS && 0 <= perm < 1024
    ensures Growing(m, a, m, a, root, lo, lo) && ZeroRun(m, root, lo, lo, perm)
  {
    assert Targets(m, a, root, lo, lo) == {};
  }

  /** The range before k is as it was. */
  lemma RangeKept(n: Mem, b: Account, o: Mem, c: Account, root: int, lo: int, k: int, hi: int)
    requires Shape(n) && 0 <= lo <= k < VPNS && IsRoot(b, root) && Remap(n, b, o, c, root, k, hi)
    requires Backed(n, b, root, lo, k)
    ensures Targets(o, c, root, lo, k) == Targets(n, b, root, lo, k) && Backed(o, c, root, lo, k)
  {
    forall u | lo <= u < k
      ensures Lookup(o, root, u) == Lookup(n, root, u) && Owned(o, c, root, u) == Owned(n, b, root, u)
    {
      assert Sees(n, b, o, c, root, u);
    }
    TargetsSame(n, b, o, c, root, lo, k);
  }

  lemma GrowingStep(m: Mem, a: Account, n: Mem, b: Account, o: Mem, c: Account,
                    root: int, lo: int, k: int, p: int, perm: int, z: Page)
    requires Shape(m) && Shape(n) && Shape(o) && 0 <= lo <= k < VPNS && 0 <= perm < 1024 && IsRoot(a, root)
    requires Growing(m, a, n, b, root, lo, k) && GrowsOne(n, b, o, c, root, k, p, perm, z) && p != 0
    ensures Growing(m, a, o, c, root, lo, k + 1)
  {
    RemapTrans(m, a, n, b, o, c, root, lo, k, k + 1);
    RangeKept(n, b, o, c, root, lo, k, k + 1);
    assert Targets(o, c, root, lo, k + 1) == Targets(n, b, root, lo, k) + {p};
    assert p !in User(a);
  }

  lemma GrowingStop(m: Mem, a: Account, n: Mem, b: Account, o: Mem, c: Account,
                    root: int, lo: int, k: int, perm: int, z: Page)
    requires Shape(m) && Shape(n) && Shape(o) && 0 <= lo <= k < VPNS && 0 <= perm < 1024 && IsRoot(a, root)
    requires Growing(m, a, n, b, root, lo, k) && GrowsOne(n, b, o, c, root, k, 0, perm, z)
    ensures Growing(m, a, o, c, root, lo, k)
  {
    RemapTrans(m, a, n, b, o, c, root, lo, k, k);
    RangeKept(n, b, o, c, root, lo, k, k);
  }

  /** An owned page is a user page. */
  lemma OwnedPage(m: Mem, a: Account, root: int, u: int)
    requires Own(m, a) && 0 <= u < VPNS && Owned(m, a, root, u)
    ensures Ppn(Lookup(m, root, u)) in User(a) && Managed(m, Ppn(Lookup(m, root, u)))
  {
    assert PageOk(m, a, Ppn(Lookup(m, root, u)));
  }

  lemma ZeroRunStep(n: Mem, b: Account, o: Mem, c: Account, root: int, lo: int, k: int, p: int, perm: int, z: Page)
    requires Shape(o) && 0 <= lo <= k < VPNS && 0 <= perm < 1024 && IsRoot(b, root) && Own(n, b)
    requires ZeroRun(n, root, lo, k, perm) && Backed(n, b, root, lo, k)
    requires ZeroPage(z) && GrowsOne(n, b, o, c, root, k, p, perm, z) && p != 0
    ensures ZeroRun(o, root, lo, k + 1, perm)
  {
    forall u | lo <= u < k + 1 ensures ZeroAt(o, root, u, perm) {
      if u < k {
        assert Sees(n, b, o, c, root, u) && ZeroAt(n, root, u, perm);
        OwnedPage(n, b, root, u);
      }
    }
  }

  /** Freeing what was added brings back the old state, as users see it. */
  lemma Undone(m: Mem, a: Account, n: Mem, b: Account, o: Mem, c: Account, root: int, lo: int, k: int)
    requires Shape(m) && Own(n, b) && Shape(o) && 0 <= lo <= k < VPNS && IsRoot(a, root) && Unmapped(m, root, lo, k)
    requires Growing(m, a, n, b, root, lo, k) && Unmapping(n, b, o, c, root, lo, k, true)
    ensures NothingNew(m, a, o, c, root)
  {
    assert User(c) == User(a);
    DropOutside(n, b, root, lo, k, true);
    RemapTrans2(m, a, n, b, o, c, root, lo, k);
    forall r, u | IsRoot(a, r) && 0 <= u < VPNS ensures Sees(m, a, o, c, r, u) {
      if r == root && lo <= u < k {
        assert Lookup(o, root, u) == 0 && Lookup(m, root, u) == 0;
      }
    }
  }

  lemma RemapTrans2(m: Mem, a: Account, n: Mem, b: Account, o: Mem, c: Account, root: int, lo: int, hi: int)
    requires Remap(m, a, n, b, root, lo, hi) && Remap(n, b, o, c, root, lo, hi)
    ensures Remap(m, a, o, c, root, lo, hi)
  {
    forall r | IsRoot(a, r) ensures IsRoot(c, r) {
      assert IsRoot(b, r);
    }
    forall r, u | IsRoot(a, r) && 0 <= u < VPNS && !(r == root && lo <= u < hi) ensures Sees(m, a, o, c, r, u) {
      assert IsRoot(b, r) && Sees(m, a, n, b, r, u) && Sees(n, b, o, c, r, u);
    }
  }

  // ---- uvmcopy

  /** uvmcopy can read the page behind e: it is a user page, or no page of the allocator. */
  predicate Readable(m: Mem, a: Account, e: int) {
    Ppn(e) in User(a) || 0 <= Ppn(e) < m.base
  }

  ghost predicate AllReadable(m: Mem, a: Account, root: int, hi: int)
    requires Shape(m)
  {
    forall u :: 0 <= u < hi && u < VPNS && Lookup(m, root, u) != 0 ==> Readable(m, a, Lookup(m, root, u))
  }

  /** An entry that is a leaf, with its flags. */
  lemma LeafFlags(m: Mem, owner: Account, t: int, i: int)
    requires Own(m, owner) && IsEntry(m, owner, t, i) && owner[t].level == 0 && V(Word(m, t, i))
    ensures Leaf(Flags(Word(m, t, i))) && Flags(Word(m, t, i)) % 2 == 1
  {
    assert EntryOk(m, owner, t, i);
    FlagsParts(Word(m, t, i));
  }

  /** dst has a copy of page u of src; or nothing has changed for users. */
  ghost predicate CopiesOne(m: Mem, a: Account, n: Mem, b: Account, src: int, dst: int, u: int, ok: bool)
    requires Shape(m) && Shape(n) && 0 <= u < VPNS
  {
    var e := Lookup(m, src, u);
    && 0 <= Ppn(e) < |m.pages|
    && exists q :: (q == 0 <==> !ok) && GrowsOne(m, a, n, b, dst, u, q, Flags(e), m.pages[Ppn(e)])
  }

  lemma CopiesNone(m: Mem, a: Account, src: int, dst: int, u: int)
    requires Shape(m) && 0 <= u < VPNS && 0 <= Ppn(Lookup(m, src, u)) < |m.pages|
    ensures CopiesOne(m, a, m, a, src, dst, u, false)
  {
    assert GrowsOne(m, a, m, a, dst, u, 0, Flags(Lookup(m, src, u)), m.pages[Ppn(Lookup(m, src, u))]);
  }

  /** Below page k, dst in n is what src was in m: same flags, same contents. */
  ghost predicate Copied(m: Mem, n: Mem, src: int, dst: int, k: int)
    requires Shape(m) && Shape(n)
  {
    forall u {:trigger CopiedAt(m, n, src, dst, u)} {:trigger Lookup(n, dst, u)} ::
      0 <= u < k && u < VPNS ==> CopiedAt(m, n, src, dst, u)
  }

  ghost predicate CopiedAt(m: Mem, n: Mem, src: int, dst: int, u: int)
    requires Shape(m) && Shape(n) && 0 <= u < VPNS
  {
    var e, f := Lookup(m, src, u), Lookup(n, dst, u);
    && (f == 0 <==> e == 0)
    && (e != 0 ==>
          && Flags(f) == Flags(e) && 0 <= Ppn(e) < |m.pages| && 0 <= Ppn(f) < |n.pages|
          && n.pages[Ppn(f)] == m.pages[Ppn(e)])
  }

  lemma SkipStep(m: Mem, a: Account, n: Mem, b: Account, src: int, dst: int, k: int)
    requires Shape(m) && Shape(n) && 0 <= k < VPNS && Growing(m, a, n, b, dst, 0, k) && Copied(m, n, src, dst, k)
    requires Lookup(m, src, k) == 0 && Lookup(n, dst, k) == 0
    ensures Growing(m, a, n, b, dst, 0, k + 1) && Copied(m, n, src, dst, k + 1)
  {
    assert Targets(n, b, dst, 0, k + 1) == Targets(n, b, dst, 0, k);
    CopiedMore(m, n, src, dst, k);
  }

  lemma CopiedMore(m: Mem, n: Mem, src: int, dst: int, k: int)
    requires Shape(m) && Shape(n) && 0 <= k < VPNS && Copied(m, n, src, dst, k) && CopiedAt(m, n, src, dst, k)
    ensures Copied(m, n, src, dst, k + 1)
  {
    forall u | 0 <= u < k + 1 ensures CopiedAt(m, n, src, dst, u) {
    }
  }

  lemma CopyStop(m: Mem, a: Account, n: Mem, b: Account, o: Mem, c: Account, src: int, dst: int, k: int)
    requires Shape(m) && Shape(n) && Shape(o) && 0 <= k < VPNS && IsRoot(a, dst)
    requires Growing(m, a, n, b, dst, 0, k) && CopiesOne(n, b, o, c, src, dst, k, false)
    ensures Growing(m, a, o, c, dst, 0, k)
  {
    var e := Lookup(n, src, k);
    GrowingStop(m, a, n, b, o, c, dst, 0, k, Flags(e), n.pages[Ppn(e)]);
  }

  lemma CopyStep(m: Mem, a: Account, n: Mem, b: Account, o: Mem, c: Account, src: int, dst: int, k: int, e: int)
    requires Shape(m) && Own(n, b) && Shape(o) && 0 <= k < VPNS && IsRoot(a, dst) && IsRoot(b, dst)
    requires Growing(m, a, n, b, dst, 0, k) && Copied(m, n, src, dst, k) && CopiesOne(n, b, o, c, src, dst, k, true)
    requires e == Lookup(n, src, k) == Lookup(m, src, k) != 0 && Flags(e) % 2 == 1
    requires 0 <= Ppn(e) < |m.pages| && n.pages[Ppn(e)] == m.pages[Ppn(e)]
    ensures Growing(m, a, o, c, dst, 0, k + 1) && Copied(m, o, src, dst, k + 1)
  {
    var q :| q != 0 && GrowsOne(n, b, o, c, dst, k, q, Flags(e), n.pages[Ppn(e)]);
    GrowingStep(m, a, n, b, o, c, dst, 0, k, q, Flags(e), n.pages[Ppn(e)]);
    forall u | 0 <= u < k ensures CopiedAt(m, o, src, dst, u) {
      assert Sees(n, b, o, c, dst, u) && CopiedAt(m, n, src, dst, u);
      if Lookup(n, dst, u) != 0 {
        OwnedPage(n, b, dst, u);
      }
    }
    assert CopiedAt(m, o, src, dst, k);
  }

  // ---- uvmfree, and whole lives of a page table

  /** root's tree apart, nothing has changed: the account, contents and translations. */
  ghost predicate Apart(m: Mem, a: Account, n: Mem, b: Account, root: int) {
    && Alike(m, n) && Outside(b, root) == Outside(a, root) && Retains(m, n, User(Outside(a, root)))
    && (forall r, u {:trigger Sees(m, a, n, b, r, u)} {:trigger Lookup(n, r, u)} ::
          IsRoot(a, r) && r != root && 0 <= u < VPNS ==> Sees(m, a, n, b, r, u))
  }

  /** Another root stays one. */
  lemma OtherRoot(a: Account, b: Account, r: int, root: int)
    requires IsRoot(a, r) && r != root && Outside(b, root) == Outside(a, root)
    ensures IsRoot(b, r)
  {
    assert r in Outside(a, root) && Outside(a, root)[r] == a[r];
    assert r in Outside(b, root) && Outside(b, root)[r] == b[r];
  }

  lemma ApartTrans(m: Mem, a: Account, n: Mem, b: Account, o: Mem, c: Account, root: int)
    requires Apart(m, a, n, b, root) && Apart(n, b, o, c, root)
    ensures Apart(m, a, o, c, root)
  {
    forall r, u | IsRoot(a, r) && r != root && 0 <= u < VPNS ensures Sees(m, a, o, c, r, u) {
      OtherRoot(a, b, r, root);
      assert Sees(m, a, n, b, r, u) && Sees(n, b, o, c, r, u);
    }
  }

  lemma UserOutside(a: Account, root: int)
    ensures User(Outside(a, root)) <= User(a)
  {}

  lemma RemapApart(m: Mem, a: Account, n: Mem, b: Account, root: int, lo: int, hi: int)
    requires Remap(m, a, n, b, root, lo, hi) && Outside(b, root) == Outside(a, root)
    requires Retains(m, n, User(a)) || Retains(m, n, User(b))
    ensures Apart(m, a, n, b, root)
  {
    UserOutside(a, root);
    UserOutside(b, root);
    forall r, u | IsRoot(a, r) && r != root && 0 <= u < VPNS ensures Sees(m, a, n, b, r, u) {}
  }

  lemma UnmappingApart(m: Mem, a: Account, n: Mem, b: Account, root: int, lo: int, hi: int)
    requires Own(m, a) && Shape(n) && IsRoot(a, root) && 0 <= lo && hi <= VPNS
    requires Unmapping(m, a, n, b, root, lo, hi, true)
    ensures Apart(m, a, n, b, root)
  {
    DropOutside(m, a, root, lo, hi, true);
    RemapApart(m, a, n, b, root, lo, hi);
  }

  /** A page table that is unmapped everywhere can be handed to freewalk. */
  lemma AllGone(m: Mem, a: Account, n: Mem, b: Account, root: int, hi: int)
    requires Own(m, a) && Own(n, b) && IsRoot(a, root) && 0 <= hi <= VPNS
    requires Unmapping(m, a, n, b, root, 0, hi, true) && Unmapped(m, root, hi, VPNS)
    ensures IsRoot(b, root) && NoLeaves(n, b, root) && IsTable(n, b, root)
  {
    assert IsRoot(b, root) && PageOk(n, b, root);
    forall u | 0 <= u < VPNS ensures Lookup(n, root, u) == 0 {
      if u >= hi {
        assert Sees(m, a, n, b, root, u);
        assert Lookup(m, root, u) == 0;
      }
    }
    NoLeavesIf(n, b, root);
  }

  /** freewalk took the tree under root away. */
  lemma FreedTree(n: Mem, b: Account, o: Mem, c: Account, root: int)
    requires Own(n, b) && Own(o, c) && IsRoot(b, root) && root !in c && Alike(n, o)
    requires Pruned(b, c, root) && Retains(n, o, c.Keys)
    ensures c == Outside(b, root) && Apart(n, b, o, c, root)
  {
    FreedAccount(o, b, c, root);
    NoTree(c, root);
    forall q, i | IsEntry(o, c, q, i) ensures Word(n, q, i) == Word(o, q, i) {
      assert q in c.Keys;
    }
    forall r, u | IsRoot(b, r) && r != root && 0 <= u < VPNS ensures Sees(n, b, o, c, r, u) {
      OtherRoot(b, c, r, root);
      SameLookup(o, n, c, r, u);
      TablePlace(o, c, r, u);
    }
  }

  /** An empty loose page can be a root. */
  lemma RootOwn(m: Mem, owner: Account, p: int)
    requires Own(m, owner) && p in owner && owner[p].level == LOOSE && NoEntries(m, p)
    ensures Own(m, owner[p := Place(2, 0, 0)]) && Unmapped(m, p, 0, VPNS)
  {
    var owner2 := owner[p := Place(2, 0, 0)];
    forall x | x in owner2 ensures PageOk(m, owner2, x) {
      assert PageOk(m, owner, x);
    }
    forall q, i | IsEntry(m, owner2, q, i) ensures EntryOk(m, owner2, q, i) {
      if q != p {
        assert IsEntry(m, owner, q, i) && EntryOk(m, owner, q, i);
      }
    }
  }
}
