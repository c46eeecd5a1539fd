/** The tree of pages under a root: what lies below it, what lies outside, and
    what freewalk (kernel/vm.c) may take away. */
module PageTree {
  import opened PageTable

  /** Page u of root is mapped, to a page that belongs to its leaf entry. */
  predicate Owned(m: Mem, owner: Account, root: int, u: int)
    requires Shape(m) && 0 <= u < VPNS
  {
    var e := Lookup(m, root, u);
    e != 0 && Ppn(e) in owner && owner[Ppn(e)] == Place(DATA, TableFor(m, root, u), Px(0, u))
  }

  ghost predicate Unmapped(m: Mem, root: int, lo: int, hi: int)
    requires Shape(m)
  {
    forall u :: lo <= u < hi && 0 <= u < VPNS ==> Lookup(m, root, u) == 0
  }

  /** Whatever is mapped in lo .. hi - 1 is owned there. */
  ghost predicate Backed(m: Mem, owner: Account, root: int, lo: int, hi: int)
    requires Shape(m)
  {
    forall u {:trigger Lookup(m, root, u)} ::
      lo <= u < hi && 0 <= u < VPNS ==> Lookup(m, root, u) == 0 || Owned(m, owner, root, u)
  }

  function Target(m: Mem, owner: Account, root: int, u: int): (s: set<int>)
    requires Shape(m) && 0 <= u < VPNS
  {
    if Owned(m, owner, root, u) then {Ppn(Lookup(m, root, u))} else {}
  }

  /** The pages that the entries for lo .. hi - 1 of root own. */
  ghost function Targets(m: Mem, owner: Account, root: int, lo: int, hi: int): (s: set<int>)
    requires Shape(m) && 0 <= lo && hi <= VPNS
    decreases hi - lo
  {
    if hi <= lo then {} else Targets(m, owner, root, lo, hi - 1) + Target(m, owner, root, hi - 1)
  }

  lemma {:induction false} TargetsSame(m: Mem, a: Account, n: Mem, b: Account, root: int, lo: int, hi: int)
    requires Shape(m) && Shape(n) && 0 <= lo && hi <= VPNS
    requires forall u :: lo <= u < hi ==>
      Lookup(n, root, u) == Lookup(m, root, u) && Owned(n, b, root, u) == Owned(m, a, root, u)
    ensures Targets(n, b, root, lo, hi) == Targets(m, a, root, lo, hi)
    decreases hi - lo
  {
    if lo < hi {
      TargetsSame(m, a, n, b, root, lo, hi - 1);
    }
  }

  // ---- below and outside

  /** x is q or in the tree under q. */
  predicate Below(owner: Account, x: int, q: int)
    decreases if x in owner && owner[x].level <= 2 then 3 - owner[x].level else 0
  {
    || x == q
    || (&& x in owner && -1 <= owner[x].level <= 1 && owner[x].table in owner
        && owner[owner[x].table].level == owner[x].level + 1 && Below(owner, owner[x].table, q))
  }

  /** The account without the tree under root. */
  function Outside(owner: Account, root: int): (rest: Account) {
    map x | x in owner && !Below(owner, x, root) :: owner[x]
  }

  /** Nothing but the pages of s differs, and no other page has its entry in one of s. */
  ghost predicate Differ(a: Account, b: Account, s: set<int>) {
    && (forall x {:trigger x in a} {:trigger x in b} :: x !in s ==> (x in a <==> x in b))
    && (forall x {:trigger a[x]} {:trigger b[x]} :: x in a && x in b && x !in s ==> a[x] == b[x])
    && (forall x {:trigger a[x]} :: x in a && x !in s && -1 <= a[x].level <= 1 ==> a[x].table !in s)
  }

  lemma {:induction false} BelowFrame(a: Account, b: Account, s: set<int>, x: int, q: int)
    requires Differ(a, b, s) && x !in s
    ensures Below(a, x, q) == Below(b, x, q)
    decreases if x in a && a[x].level <= 2 then 3 - a[x].level else 0
  {
    if x in a && -1 <= a[x].level <= 1 && a[x].table in a && a[a[x].table].level == a[x].level + 1 {
      assert a[x].table !in s;
      BelowFrame(a, b, s, a[x].table, q);
    }
  }

  lemma OutsideFrame(a: Account, b: Account, s: set<int>, root: int)
    requires Differ(a, b, s)
    ensures Outside(b, root) - s == Outside(a, root) - s
  {
    forall x | x !in s ensures Below(a, x, root) == Below(b, x, root) {
      BelowFrame(a, b, s, x, root);
    }
  }

  /** A page has its entry in a table. */
  lemma InTable(m: Mem, owner: Account, x: int)
    requires Own(m, owner) && x in owner
    ensures -1 <= owner[x].level <= 1 ==> owner[x].table in owner && owner[owner[x].table].level == owner[x].level + 1
  {
    assert PageOk(m, owner, x);
  }

  /** A page that is free or not a table: no other page has its entry in it. */
  lemma DifferAt(m: Mem, a: Account, b: Account, p: int)
    requires Own(m, a) && (p in a ==> a[p].level < 0)
    requires b == a - {p} || (p in b && b == a[p := b[p]])
    ensures Differ(a, b, {p})
  {
    forall x | x in a && x != p && -1 <= a[x].level <= 1 ensures a[x].table != p {
      InTable(m, a, x);
    }
  }

  /** kalloc: one more page outside every tree. */
  lemma LooseOutside(m: Mem, owner: Account, p: int, root: int)
    requires Own(m, owner) && p !in owner && p != root
    ensures Outside(owner[p := Place(LOOSE, 0, 0)], root) == Outside(owner, root)[p := Place(LOOSE, 0, 0)]
  {
    var b := owner[p := Place(LOOSE, 0, 0)];
    DifferAt(m, owner, b, p);
    OutsideFrame(owner, b, {p}, root);
    OutsideJoin(Outside(owner, root), Outside(b, root), p);
  }

  lemma OutsideJoin(a: Account, b: Account, p: int)
    requires b - {p} == a - {p} && p in b
    ensures b == a[p := b[p]]
  {
    forall x | x != p ensures (x in b <==> x in a) && (x in a ==> b[x] == a[x]) {
      assert (x in b - {p} <==> x in a - {p}) && (x in a - {p} ==> (b - {p})[x] == (a - {p})[x]);
    }
  }

  /** A loose page, or one just allocated, becomes part of root's tree. */
  lemma AttachOutside(m: Mem, owner: Account, q: int, p: int, x: Place, root: int)
    requires Own(m, owner) && p in owner && owner[p].level == LOOSE && p != root
    requires x.table == q && -1 <= x.level <= 1 && q in owner && owner[q].level == x.level + 1 && Below(owner, q, root)
    ensures Outside(owner[p := x], root) == Outside(owner, root) - {p}
    ensures Below(owner[p := x], p, root)
    ensures forall y :: Below(owner, y, root) ==> Below(owner[p := x], y, root)
  {
    var b := owner[p := x];
    DifferAt(m, owner, b, p);
    OutsideFrame(owner, b, {p}, root);
    BelowFrame(owner, b, {p}, q, root);
    forall y | Below(owner, y, root) && y != p ensures Below(b, y, root) {
      BelowFrame(owner, b, {p}, y, root);
    }
  }

  /** kfree of a loose page. */
  lemma FreeOutside(m: Mem, owner: Account, p: int, root: int)
    requires Own(m, owner) && p in owner && owner[p].level == LOOSE && p != root
    ensures Outside(owner - {p}, root) == Outside(owner, root) - {p}
  {
    DifferAt(m, owner, owner - {p}, p);
    OutsideFrame(owner, owner - {p}, {p}, root);
  }

  lemma {:induction false} TargetsBelow(m: Mem, owner: Account, root: int, lo: int, hi: int, x: int)
    requires Own(m, owner) && IsRoot(owner, root) && 0 <= lo && hi <= VPNS && x in Targets(m, owner, root, lo, hi)
    ensures x in owner && owner[x].level == DATA && Below(owner, x, root)
    decreases hi - lo
  {
    var e := Lookup(m, root, hi - 1);
    if Owned(m, owner, root, hi - 1) && x == Ppn(e) {
      TablePlace(m, owner, root, hi - 1);
      var t0 := TableFor(m, root, hi - 1);
      assert Below(owner, owner[t0].table, root) && Below(owner, t0, root);
    } else {
      TargetsBelow(m, owner, root, lo, hi - 1, x);
    }
  }

  /** The account without the pages s, or with them loose. */
  function Drop(owner: Account, s: set<int>, free: bool): (rest: Account) {
    if free then owner - s else map x | x in owner :: if x in s then Place(LOOSE, 0, 0) else owner[x]
  }

  lemma DropTwice(owner: Account, s: set<int>, t: set<int>, free: bool)
    ensures Drop(Drop(owner, s, free), t, free) == Drop(owner, s + t, free)
  {}

  /** Freeing the pages behind a range leaves everything outside alone. */
  lemma DropOutside(m: Mem, owner: Account, root: int, lo: int, hi: int, free: bool)
    requires Own(m, owner) && IsRoot(owner, root) && 0 <= lo && hi <= VPNS
    ensures var s := Targets(m, owner, root, lo, hi);
      && Outside(Drop(owner, s, free), root) - s == Outside(owner, root)
      && (free ==> Outside(Drop(owner, s, free), root) == Outside(owner, root))
  {
    var s := Targets(m, owner, root, lo, hi);
    var b := Drop(owner, s, free);
    forall x | x in s ensures x in owner && owner[x].level == DATA && Below(owner, x, root) {
      TargetsBelow(m, owner, root, lo, hi, x);
    }
    forall x | x in owner && x !in s && -1 <= owner[x].level <= 1 ensures owner[x].table !in s {
      InTable(m, owner, x);
    }
    OutsideFrame(owner, b, s, root);
    assert Outside(owner, root) - s == Outside(owner, root);
    assert free ==> Outside(b, root) - s == Outside(b, root);
  }

  /** A page nobody has allocated has no tree. */
  lemma {:induction false} NotBelow(owner: Account, x: int, q: int)
    requires q !in owner && x in owner
    ensures !Below(owner, x, q)
    decreases if owner[x].level <= 2 then 3 - owner[x].level else 0
  {
    if -1 <= owner[x].level <= 1 && owner[x].table in owner && owner[owner[x].table].level == owner[x].level + 1 {
      NotBelow(owner, owner[x].table, q);
    }
  }

  lemma NoTree(owner: Account, root: int)
    requires root !in owner
    ensures Outside(owner, root) == owner
  {
    forall x | x in owner ensures !Below(owner, x, root) {
      NotBelow(owner, x, root);
    }
  }

  /** A new root. */
  lemma RootOutside(m: Mem, owner: Account, p: int)
    requires Own(m, owner) && p !in owner
    ensures Outside(owner[p := Place(2, 0, 0)], p) == owner
  {
    var b := owner[p := Place(2, 0, 0)];
    DifferAt(m, owner, b, p);
    OutsideFrame(owner, b, {p}, p);
    NoTree(owner, p);
    assert Outside(b, p) - {p} == Outside(b, p) && owner - {p} == owner;
  }

  // ---- trees without leaves

  /** No entry under q maps a page. */
  ghost predicate NoLeaves(m: Mem, owner: Account, q: int)
    requires Shape(m)
  {
    forall t, i {:trigger IsEntry(m, owner, t, i)} ::
      IsEntry(m, owner, t, i) && owner[t].level == 0 && Below(owner, t, q) ==> !V(Word(m, t, i))
  }

  /** b is a without some pages under q. */
  ghost predicate Pruned(a: Account, b: Account, q: int) {
    && (forall x :: x in b ==> x in a && b[x] == a[x])
    && (forall x :: x in a && x !in b ==> Below(a, x, q))
  }

  lemma {:induction false} BelowMono(a: Account, b: Account, x: int, q: int)
    requires (forall y :: y in b ==> y in a && b[y] == a[y]) && Below(b, x, q)
    ensures Below(a, x, q)
    decreases if x in b && b[x].level <= 2 then 3 - b[x].level else 0
  {
    if x != q {
      BelowMono(a, b, b[x].table, q);
    }
  }

  lemma {:induction false} BelowUp(owner: Account, x: int, c: int, q: int)
    requires Below(owner, x, c) && c in owner && -1 <= owner[c].level <= 1 && owner[c].table == q
    requires q in owner && owner[q].level == owner[c].level + 1
    ensures Below(owner, x, q)
    decreases if x in owner && owner[x].level <= 2 then 3 - owner[x].level else 0
  {
    if x == c {
      assert Below(owner, q, q);
    } else {
      BelowUp(owner, owner[x].table, c, q);
    }
  }

  lemma {:induction false} BelowLevel(owner: Account, x: int, c: int)
    requires Below(owner, x, c) && c in owner && x != c
    ensures x in owner && owner[x].level < owner[c].level
    decreases if x in owner && owner[x].level <= 2 then 3 - owner[x].level else 0
  {
    if owner[x].table != c {
      BelowLevel(owner, owner[x].table, c);
    }
  }

  lemma PrunedTrans(a: Account, b: Account, c: Account, q: int)
    requires Pruned(a, b, q) && Pruned(b, c, q)
    ensures Pruned(a, c, q)
  {
    forall x | x in a && x !in c ensures Below(a, x, q) {
      if x in b {
        BelowMono(a, b, x, q);
      }
    }
  }

  lemma PrunedSelf(a: Account, b: Account, c: Account, q: int)
    requires Pruned(a, b, q) && c == b - {q}
    ensures Pruned(a, c, q)
  {}

  /** In a tree without leaves a valid entry refers to a table. */
  lemma TableChild(m: Mem, owner: Account, q: int, i: int)
    requires Own(m, owner) && IsEntry(m, owner, q, i) && NoLeaves(m, owner, q) && V(Word(m, q, i))
    ensures var e := Word(m, q, i);
      && !Leaf(e) && 0 < owner[q].level <= 2 && IsTable(m, owner, Ppn(e))
      && owner[Ppn(e)] == Place(owner[q].level - 1, q, i) && NoLeaves(m, owner, Ppn(e))
  {
    var p := Ppn(Word(m, q, i));
    assert Below(owner, q, q) && owner[q].level > 0;
    assert EntryOk(m, owner, q, i) && PageOk(m, owner, p) && PageOk(m, owner, q);
    forall t, j | IsEntry(m, owner, t, j) && owner[t].level == 0 && Below(owner, t, p) ensures !V(Word(m, t, j)) {
      BelowUp(owner, t, p, q);
    }
  }

  lemma PrunedChild(a: Account, b: Account, c: int, q: int)
    requires Pruned(a, b, c) && c in a && 0 <= a[c].level <= 1 && a[c].table == q && q in a
    requires a[q].level == a[c].level + 1
    ensures Pruned(a, b, q) && q in b
  {
    forall x | x in a && x !in b ensures Below(a, x, q) && x != q {
      BelowUp(a, x, c, q);
      if x != c {
        BelowLevel(a, x, c);
      }
    }
  }

  /** The pages that stay are as before, except that q may have lost entries. */
  lemma NoLeavesLess(m: Mem, a: Account, n: Mem, b: Account, q: int)
    requires Shape(m) && Shape(n) && n.base == m.base && |n.pages| == |m.pages| && NoLeaves(m, a, q)
    requires forall x :: x in b ==> x in a && b[x] == a[x]
    requires forall t, i {:trigger Word(n, t, i)} :: IsEntry(n, b, t, i) && V(Word(n, t, i)) ==> V(Word(m, t, i))
    ensures NoLeaves(n, b, q)
  {
    forall t, i | IsEntry(n, b, t, i) && b[t].level == 0 && Below(b, t, q) ensures !V(Word(n, t, i)) {
      BelowMono(a, b, t, q);
      assert IsEntry(m, a, t, i);
    }
  }

  /** A page table that translates nothing has no leaves. */
  lemma NoLeavesIf(m: Mem, owner: Account, root: int)
    requires Own(m, owner) && IsRoot(owner, root) && Unmapped(m, root, 0, VPNS)
    ensures NoLeaves(m, owner, root)
  {
    forall t, i | IsEntry(m, owner, t, i) && owner[t].level == 0 && Below(owner, t, root) ensures !V(Word(m, t, i)) {
      var _ := LeafPath(m, owner, root, t, i);
    }
  }

  /** The virtual page of an entry in a level-0 table of root's tree. */
  lemma LeafPath(m: Mem, owner: Account, root: int, t: int, i: int) returns (v: int)
    requires Own(m, owner) && IsRoot(owner, root) && IsEntry(m, owner, t, i) && owner[t].level == 0
    requires Below(owner, t, root)
    ensures 0 <= v < VPNS && TableFor(m, root, v) == t && Px(0, v) == i
    ensures Lookup(m, root, v) == if V(Word(m, t, i)) then Word(m, t, i) else 0
  {
    assert PageOk(m, owner, t);
    var t1 := owner[t].table;
    assert PageOk(m, owner, t1);
    assert Below(owner, t1, root);
    assert owner[owner[t1].table].level == 2 && Below(owner, owner[t1].table, root);
    v := owner[t1].index * 0x4_0000 + owner[t].index * ENTRIES + i;
    PxParts(owner[t1].index, owner[t].index, i);
  }

  lemma PxParts(i2: int, i1: int, i0: int)
    requires 0 <= i2 < ROOTENTRIES && 0 <= i1 < ENTRIES && 0 <= i0 < ENTRIES
    ensures var v := i2 * 0x4_0000 + i1 * ENTRIES + i0;
      0 <= v < VPNS && Px(2, v) == i2 && Px(1, v) == i1 && Px(0, v) == i0
  {
    var v := i2 * 0x4_0000 + i1 * ENTRIES + i0;
    assert v / ENTRIES == i2 * ENTRIES + i1;
  }

  lemma {:induction false} AncestorIn(o: Mem, a: Account, c: Account, x: int, root: int)
    requires Own(o, c) && (forall y :: y in c ==> y in a && c[y] == a[y]) && x in c && Below(a, x, root)
    ensures root in c
    decreases if x in a && a[x].level <= 2 then 3 - a[x].level else 0
  {
    if x != root {
      InTable(o, c, x);
      AncestorIn(o, a, c, a[x].table, root);
    }
  }

  /** Pruning down to the root leaves exactly the outside. */
  lemma FreedAccount(o: Mem, b: Account, c: Account, root: int)
    requires Own(o, c) && root !in c && Pruned(b, c, root)
    ensures c == Outside(b, root)
  {
    forall x | x in c ensures x in b && !Below(b, x, root) {
      if Below(b, x, root) {
        AncestorIn(o, b, c, x, root);
      }
    }
    assert forall x :: x in Outside(b, root) <==> x in c;
  }
}
