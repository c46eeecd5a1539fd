/** Sv39 page tables (section 4.4 of the RISC-V Privileged Architecture,
    version 20211203) as kernel/vm.c builds them, in pages that kernel/kalloc.c
    hands out.  Pages are known by their number, address / PGSIZE. */
module PageTable {
  const PGSIZE := 4096
  const ENTRIES := 512
  const VPNS := 0x400_0000        // MAXVA / PGSIZE
  const ROOTENTRIES := 256        // the root's entries below MAXVA
  const LOOSE := -2               // allocated, in no page table
  const DATA := -1                // owned by the leaf entry that maps it

  datatype Page = Page(w: seq<int>)
  datatype Mem = Mem(base: int, pages: seq<Page>)

  /** Where an allocated page is: level 2 is a root, levels 1 and 0 are table
      pages, DATA a user page; table and index tell the entry that refers to it.
      A leaf entry need not own the page it maps: the trampoline is kernel text
      in every page table, and a trapframe belongs to its process. */
  datatype Place = Place(level: int, table: int, index: int)
  type Account = map<int, Place>

  // ---- page-table entries

  predicate V(e: int) {
    e % 2 == 1
  }

  /** One of R, W and X is set. */
  predicate Leaf(e: int) {
    e / 2 % 8 != 0
  }

  function Ppn(e: int): (p: int) {
    e / 1024
  }

  function Flags(e: int): (f: int) {
    e % 1024
  }

  /** PA2PTE(pa) | perm | PTE_V */
  function Entry(p: int, perm: int): (e: int)
    requires 0 <= p && 0 <= perm < 1024
    ensures V(e) && Ppn(e) == p && Flags(e) == perm + (1 - perm % 2) && (Leaf(e) <==> Leaf(perm))
  {
    var f := perm + (1 - perm % 2);
    EntryParts(p, perm, f);
    p * 1024 + f
  }

  lemma EntryParts(p: int, perm: int, f: int)
    requires 0 <= p && 0 <= perm < 1024 && f == perm + (1 - perm % 2)
    ensures V(p * 1024 + f) && Ppn(p * 1024 + f) == p && Flags(p * 1024 + f) == f
    ensures Leaf(p * 1024 + f) <==> Leaf(perm)
  {
    SetV(perm, f);
    DivMod(p, 1024, f);
    Halves(p, f);
    DivMod(64 * p + f / 16, 8, f / 2 % 8);
  }

  lemma SetV(perm: int, f: int)
    requires 0 <= perm < 1024 && f == perm + (1 - perm % 2)
    ensures 0 <= f < 1024 && f % 2 == 1 && f / 2 == perm / 2
  {}

  lemma DivMod(p: int, k: int, f: int)
    requires k == 1024 || k == 8
    requires 0 <= f < k
    ensures (p * k + f) / k == p && (p * k + f) % k == f
  {}

  lemma Halves(p: int, f: int)
    requires 0 <= f < 1024
    ensures (p * 1024 + f) / 2 == (64 * p + f / 16) * 8 + f / 2 % 8 && (p * 1024 + f) % 2 == f % 2
  {
    assert f / 2 == f / 16 * 8 + f / 2 % 8;
  }

  lemma FlagsParts(e: int)
    ensures (Leaf(Flags(e)) <==> Leaf(e)) && (V(Flags(e)) <==> V(e))
  {
    Halves(e / 1024, e % 1024);
    DivMod(64 * (e / 1024) + e % 1024 / 16, 8, e % 1024 / 2 % 8);
  }

  // ---- the account

  predicate Shape(m: Mem) {
    0 < m.base <= |m.pages| && forall p :: 0 <= p < |m.pages| ==> |m.pages[p].w| == ENTRIES
  }

  function Word(m: Mem, p: int, i: int): (e: int)
    requires Shape(m) && 0 <= p < |m.pages| && 0 <= i < ENTRIES
  {
    m.pages[p].w[i]
  }

  predicate Managed(m: Mem, p: int) {
    m.base <= p < |m.pages|
  }

  predicate Refers(m: Mem, q: int, i: int, p: int, leaf: bool)
    requires Shape(m)
  {
    && 0 <= q < |m.pages| && 0 <= i < ENTRIES && V(Word(m, q, i))
    && Ppn(Word(m, q, i)) == p && Leaf(Word(m, q, i)) == leaf
  }

  predicate PageOk(m: Mem, owner: Account, p: int)
    requires Shape(m) && p in owner
  {
    var x := owner[p];
    && Managed(m, p) && -2 <= x.level <= 2 && (x.level == 1 ==> x.index < ROOTENTRIES)
    && (-1 <= x.level <= 1 ==>
          && x.table in owner && owner[x.table].level == x.level + 1
          && Refers(m, x.table, x.index, p, x.level == DATA))
  }

  /** A valid entry of a level-0 table is a leaf; above, it refers to its table. */
  predicate EntryOk(m: Mem, owner: Account, q: int, i: int)
    requires Shape(m) && q in owner && 0 <= q < |m.pages| && 0 <= i < ENTRIES
  {
    var e := Word(m, q, i);
    V(e) ==>
      if owner[q].level == 0 then Leaf(e)
      else Ppn(e) in owner && owner[Ppn(e)] == Place(owner[q].level - 1, q, i)
  }

  predicate IsTable(m: Mem, owner: Account, q: int) {
    q in owner && owner[q].level >= 0 && Managed(m, q) && 0 < m.base
  }

  predicate IsEntry(m: Mem, owner: Account, q: int, i: int) {
    IsTable(m, owner, q) && 0 <= i < ENTRIES
  }

  /** The page that entry i of q refers to belongs to that entry. */
  predicate Owns(m: Mem, owner: Account, q: int, i: int)
    requires Shape(m) && 0 <= q < |m.pages| && 0 <= i < ENTRIES
  {
    var e := Word(m, q, i);
    V(e) && Ppn(e) in owner && owner[Ppn(e)].table == q && owner[Ppn(e)].index == i && -1 <= owner[Ppn(e)].level <= 1
  }

  /** Every entry but the one at hole agrees with the account; pages not in the
      account are free. */
  ghost predicate OwnBut(m: Mem, owner: Account, hole: Place) {
    && Shape(m)
    && (forall p {:trigger PageOk(m, owner, p)} :: p in owner ==> PageOk(m, owner, p))
    && (forall q, i {:trigger EntryOk(m, owner, q, i)} ::
          IsEntry(m, owner, q, i) && !(q == hole.table && i == hole.index) ==> EntryOk(m, owner, q, i))
  }

  ghost predicate Own(m: Mem, owner: Account) {
    && Shape(m)
    && (forall p {:trigger PageOk(m, owner, p)} :: p in owner ==> PageOk(m, owner, p))
    && (forall q, i {:trigger EntryOk(m, owner, q, i)} :: IsEntry(m, owner, q, i) ==> EntryOk(m, owner, q, i))
  }

  /** All words of table pages are as before. */
  ghost predicate SameTables(m: Mem, n: Mem, owner: Account) {
    && Shape(m) && Shape(n) && n.base == m.base && |n.pages| == |m.pages|
    && forall q, i :: IsEntry(m, owner, q, i) ==> Word(n, q, i) == Word(m, q, i)
  }

  /** All but the one at (q, i). */
  ghost predicate SameTablesBut(m: Mem, n: Mem, owner: Account, q: int, i: int) {
    && Shape(m) && Shape(n) && n.base == m.base && |n.pages| == |m.pages|
    && forall r, j :: IsEntry(m, owner, r, j) && !(r == q && j == i) ==> Word(n, r, j) == Word(m, r, j)
  }

  // ---- what the steps do to the account

  /** kalloc, and kfree of a page in no table. */
  lemma LooseOwn(m: Mem, n: Mem, owner: Account, p: int)
    requires Own(m, owner) && Managed(m, p) && p !in owner && SameTables(m, n, owner)
    ensures Own(n, owner[p := Place(LOOSE, 0, 0)])
  {
    var owner2 := owner[p := Place(LOOSE, 0, 0)];
    forall x | x in owner2 ensures PageOk(n, owner2, x) {
      if x != p {
        KeepsRefers(m, n, owner, x);
      }
    }
    forall q, i | IsEntry(n, owner2, q, i) ensures EntryOk(n, owner2, q, i) {
      assert IsEntry(m, owner, q, i) && EntryOk(m, owner, q, i);
    }
  }

  lemma KeepsRefers(m: Mem, n: Mem, owner: Account, x: int)
    requires Own(m, owner) && x in owner && SameTables(m, n, owner)
    ensures PageOk(n, owner, x)
  {
    var t := owner[x].table;
    assert PageOk(m, owner, x);
    if -1 <= owner[x].level <= 1 {
      assert PageOk(m, owner, t);
      assert IsEntry(m, owner, t, owner[x].index);
    }
  }

  lemma SameOwn(m: Mem, n: Mem, owner: Account)
    requires Own(m, owner) && SameTables(m, n, owner)
    ensures Own(n, owner)
  {
    forall x | x in owner ensures PageOk(n, owner, x) {
      KeepsRefers(m, n, owner, x);
    }
    forall q, i | IsEntry(n, owner, q, i) ensures EntryOk(n, owner, q, i) {
      assert IsEntry(m, owner, q, i) && EntryOk(m, owner, q, i);
    }
  }

  /** A reference of x that is not at (q, i) stays. */
  lemma KeepsRefersBut(m: Mem, n: Mem, owner: Account, q: int, i: int, x: int)
    requires Shape(m) && x in owner && PageOk(m, owner, x) && SameTablesBut(m, n, owner, q, i)
    requires -1 <= owner[x].level <= 1 ==> PageOk(m, owner, owner[x].table)
    requires -1 <= owner[x].level <= 1 ==> !(owner[x].table == q && owner[x].index == i)
    ensures PageOk(n, owner, x)
  {
    if -1 <= owner[x].level <= 1 {
      assert IsEntry(m, owner, owner[x].table, owner[x].index);
    }
  }

  predicate NoEntries(m: Mem, p: int)
    requires Shape(m)
  {
    0 <= p < |m.pages| && forall i :: 0 <= i < ENTRIES ==> !V(Word(m, p, i))
  }

  /** A loose page gets its entry. */
  lemma AttachOwn(m: Mem, n: Mem, owner: Account, q: int, i: int, p: int)
    requires Own(m, owner) && IsEntry(m, owner, q, i) && p in owner && owner[p].level == LOOSE
    requires SameTablesBut(m, n, owner, q, i) && !V(Word(m, q, i)) && Refers(n, q, i, p, owner[q].level == 0)
    requires owner[q].level > 0 ==> NoEntries(n, p)
    requires owner[q].level == 2 ==> i < ROOTENTRIES
    ensures Own(n, owner[p := Place(owner[q].level - 1, q, i)])
  {
    var owner2 := owner[p := Place(owner[q].level - 1, q, i)];
    assert PageOk(m, owner, p) && PageOk(m, owner, q);
    forall x | x in owner2 ensures PageOk(n, owner2, x) {
      if x != p {
        assert PageOk(m, owner, x);
        assert -1 <= owner[x].level <= 1 ==> PageOk(m, owner, owner[x].table);
        KeepsRefersBut(m, n, owner, q, i, x);
        assert -1 <= owner[x].level <= 1 ==> owner[x].table != p;
      }
    }
    forall r, j | IsEntry(n, owner2, r, j) ensures EntryOk(n, owner2, r, j) {
      if r != p {
        assert IsEntry(m, owner, r, j) && EntryOk(m, owner, r, j);
        if V(Word(m, r, j)) && owner[r].level != 0 {
          assert PageOk(m, owner, Ppn(Word(m, r, j)));
        }
      }
    }
  }

  /** No page has its entry in p. */
  lemma Childless(m: Mem, owner: Account, p: int, x: int)
    requires Own(m, owner) && p in owner && (owner[p].level >= 0 ==> NoEntries(m, p)) && x in owner
    ensures -1 <= owner[x].level <= 1 ==> owner[x].table != p
  {
    assert PageOk(m, owner, x) && PageOk(m, owner, p);
  }

  /** The entry of p is cleared, and p is free or loose. */
  lemma DetachOwn(m: Mem, n: Mem, owner: Account, q: int, i: int, p: int, keep: bool)
    requires Own(m, owner) && IsEntry(m, owner, q, i) && V(Word(m, q, i)) && p == Ppn(Word(m, q, i))
    requires Owns(m, owner, q, i) && (owner[p].level >= 0 ==> NoEntries(m, p))
    requires SameTablesBut(m, n, owner - {p}, q, i) && !V(Word(n, q, i))
    ensures Own(n, if keep then owner[p := Place(LOOSE, 0, 0)] else owner - {p})
  {
    var owner2 := if keep then owner[p := Place(LOOSE, 0, 0)] else owner - {p};
    assert EntryOk(m, owner, q, i) && PageOk(m, owner, p) && PageOk(m, owner, q);
    forall x | x in owner2 ensures PageOk(n, owner2, x) {
      if x != p {
        assert PageOk(m, owner, x);
        Childless(m, owner, p, x);
        if -1 <= owner[x].level <= 1 {
          assert PageOk(m, owner, owner[x].table);
          assert IsEntry(m, owner - {p}, owner[x].table, owner[x].index);
        }
      }
    }
    forall r, j | IsEntry(n, owner2, r, j) ensures EntryOk(n, owner2, r, j) {
      assert IsEntry(m, owner - {p}, r, j) && IsEntry(m, owner, r, j) && EntryOk(m, owner, r, j);
    }
  }

  /** An entry that owns nothing is written: mapped without owning the page, or cleared. */
  lemma LeafOwn(m: Mem, n: Mem, owner: Account, q: int, i: int)
    requires Own(m, owner) && IsEntry(m, owner, q, i) && owner[q].level == 0 && !Owns(m, owner, q, i)
    requires SameTablesBut(m, n, owner, q, i) && (V(Word(n, q, i)) ==> Leaf(Word(n, q, i)))
    ensures Own(n, owner)
  {
    forall x | x in owner ensures PageOk(n, owner, x) {
      assert PageOk(m, owner, x);
      assert -1 <= owner[x].level <= 1 ==> PageOk(m, owner, owner[x].table);
      KeepsRefersBut(m, n, owner, q, i, x);
    }
    forall r, j | IsEntry(n, owner, r, j) ensures EntryOk(n, owner, r, j) {
      assert IsEntry(m, owner, r, j) && EntryOk(m, owner, r, j);
    }
  }

  /** A page in no table, or an empty table, is freed; its own entry is left as it is. */
  lemma FreeOwn(m: Mem, n: Mem, owner: Account, p: int)
    requires Own(m, owner) && p in owner && (owner[p].level >= 0 ==> NoEntries(m, p))
    requires SameTables(m, n, owner - {p})
    ensures OwnBut(n, owner - {p}, owner[p])
    ensures owner[p].level == 2 || owner[p].level == LOOSE ==> Own(n, owner - {p})
  {
    var owner2 := owner - {p};
    assert PageOk(m, owner, p);
    forall x | x in owner2 ensures PageOk(n, owner2, x) {
      assert PageOk(m, owner, x);
      Childless(m, owner, p, x);
      if -1 <= owner[x].level <= 1 {
        assert PageOk(m, owner, owner[x].table);
        assert IsEntry(m, owner2, owner[x].table, owner[x].index);
      }
    }
    forall r, j | IsEntry(n, owner2, r, j) && !(r == owner[p].table && j == owner[p].index)
      ensures EntryOk(n, owner2, r, j)
    {
      assert IsEntry(m, owner2, r, j) && IsEntry(m, owner, r, j) && EntryOk(m, owner, r, j);
    }
    if owner[p].level == 2 || owner[p].level == LOOSE {
      forall r, j | IsEntry(n, owner2, r, j) ensures EntryOk(n, owner2, r, j) {
        assert IsEntry(m, owner2, r, j) && IsEntry(m, owner, r, j) && EntryOk(m, owner, r, j);
        assert PageOk(m, owner, r);
      }
    }
  }

  lemma ClearOwn(m: Mem, n: Mem, owner: Account, hole: Place)
    requires OwnBut(m, owner, hole) && IsEntry(m, owner, hole.table, hole.index)
    requires Ppn(Word(m, hole.table, hole.index)) !in owner
    requires SameTablesBut(m, n, owner, hole.table, hole.index) && !V(Word(n, hole.table, hole.index))
    ensures Own(n, owner)
  {
    forall x | x in owner ensures PageOk(n, owner, x) {
      assert PageOk(m, owner, x);
      assert -1 <= owner[x].level <= 1 ==> PageOk(m, owner, owner[x].table);
      KeepsRefersBut(m, n, owner, hole.table, hole.index, x);
    }
    forall r, j | IsEntry(n, owner, r, j) ensures EntryOk(n, owner, r, j) {
      assert IsEntry(m, owner, r, j);
      assert !(r == hole.table && j == hole.index) ==> EntryOk(m, owner, r, j);
    }
  }

  // ---- translation

  /** PX(level, va) for the page va / PGSIZE == v */
  function Px(level: int, v: int): (i: int)
    requires 0 <= level <= 2 && 0 <= v < VPNS
    ensures 0 <= i < ENTRIES && (level == 2 ==> i < ROOTENTRIES)
  {
    if level == 2 then v / 0x4_0000 else if level == 1 then v / ENTRIES % ENTRIES else v % ENTRIES
  }

  /** The indices are the page number's three digits of nine bits, level 2 first. */
  lemma PxDigits(v: int)
    requires 0 <= v < VPNS
    ensures v == (Px(2, v) * 512 + Px(1, v)) * 512 + Px(0, v)
  {
    assert v == v / 0x4_0000 * 0x4_0000 + v / ENTRIES % ENTRIES * ENTRIES + v % ENTRIES;
  }

  /** The three indices determine the page. */
  lemma PxInjective(v: int, u: int)
    requires 0 <= v < VPNS && 0 <= u < VPNS
    requires Px(2, v) == Px(2, u) && Px(1, v) == Px(1, u) && Px(0, v) == Px(0, u)
    ensures v == u
  {
    PxDigits(v);
    PxDigits(u);
  }

  /** The table that entry i of q refers to, if any; else -1. */
  function Child(m: Mem, q: int, i: int): (p: int)
    requires Shape(m) && 0 <= i < ENTRIES
  {
    if 0 <= q < |m.pages| && V(Word(m, q, i)) then Ppn(Word(m, q, i)) else -1
  }

  /** The level-0 table for page v under root; -1 if there is none. */
  function TableFor(m: Mem, root: int, v: int): (t: int)
    requires Shape(m) && 0 <= v < VPNS
  {
    Child(m, Child(m, root, Px(2, v)), Px(1, v))
  }

  /** The flat map that a page table stands for: the leaf entry of page v, 0 if v is not mapped. */
  function Lookup(m: Mem, root: int, v: int): (e: int)
    requires Shape(m) && 0 <= v < VPNS
    ensures e == 0 || V(e)
  {
    var t := TableFor(m, root, v);
    if 0 <= t < |m.pages| && V(Word(m, t, Px(0, v))) then Word(m, t, Px(0, v)) else 0
  }

  predicate IsRoot(owner: Account, root: int) {
    root in owner && owner[root].level == 2
  }

  /** The account knows the tables on the way. */
  lemma TablePlace(m: Mem, owner: Account, root: int, v: int)
    requires Own(m, owner) && IsRoot(owner, root) && 0 <= v < VPNS
    ensures IsTable(m, owner, root)
    ensures var t1, t0 := Child(m, root, Px(2, v)), TableFor(m, root, v);
      && (t1 != -1 ==> IsTable(m, owner, t1) && owner[t1] == Place(1, root, Px(2, v)))
      && (t0 != -1 ==> t1 != -1 && IsTable(m, owner, t0) && owner[t0] == Place(0, t1, Px(1, v)))
  {
    assert PageOk(m, owner, root);
    assert IsEntry(m, owner, root, Px(2, v)) && EntryOk(m, owner, root, Px(2, v));
    var t1 := Child(m, root, Px(2, v));
    if t1 != -1 {
      assert PageOk(m, owner, t1);
      assert IsEntry(m, owner, t1, Px(1, v)) && EntryOk(m, owner, t1, Px(1, v));
      var t0 := TableFor(m, root, v);
      if t0 != -1 {
        assert PageOk(m, owner, t0);
      }
    }
  }

  /** Different pages, or pages of different tables, have different entries. */
  lemma EntriesDiffer(m: Mem, owner: Account, r: int, u: int, root: int, v: int)
    requires Own(m, owner) && IsRoot(owner, r) && IsRoot(owner, root) && 0 <= u < VPNS && 0 <= v < VPNS
    requires TableFor(m, root, v) != -1 && TableFor(m, r, u) == TableFor(m, root, v) && Px(0, u) == Px(0, v)
    ensures r == root && u == v
  {
    TablePlace(m, owner, r, u);
    TablePlace(m, owner, root, v);
    PxInjective(u, v);
  }

  /** Writing entry (t, i) of a level-0 table changes the map of that one page only. */
  lemma LeafLookup(m: Mem, n: Mem, owner: Account, root: int, v: int, r: int, u: int)
    requires Own(m, owner) && IsRoot(owner, r) && IsRoot(owner, root) && 0 <= u < VPNS && 0 <= v < VPNS
    requires IsTable(m, owner, TableFor(m, root, v)) && SameTablesBut(m, n, owner, TableFor(m, root, v), Px(0, v))
    ensures TableFor(n, r, u) == TableFor(m, r, u)
    ensures Lookup(n, r, u) ==
      var e := Word(n, TableFor(m, root, v), Px(0, v));
      if r != root || u != v then Lookup(m, r, u) else if V(e) then e else 0
  {
    TablePlace(m, owner, r, u);
    TablePlace(m, owner, root, v);
    var t1, t0 := Child(m, r, Px(2, u)), TableFor(m, r, u);
    assert IsEntry(m, owner, r, Px(2, u));
    assert Child(n, r, Px(2, u)) == t1;
    if t1 != -1 {
      assert IsEntry(m, owner, t1, Px(1, u));
      assert TableFor(n, r, u) == t0;
      if t0 != -1 {
        assert IsEntry(m, owner, t0, Px(0, u));
        if t0 == TableFor(m, root, v) && Px(0, u) == Px(0, v) {
          EntriesDiffer(m, owner, r, u, root, v);
        }
      }
    }
  }

  lemma SameLookup(m: Mem, n: Mem, owner: Account, r: int, u: int)
    requires Own(m, owner) && IsRoot(owner, r) && 0 <= u < VPNS && SameTables(m, n, owner)
    ensures Lookup(n, r, u) == Lookup(m, r, u) && TableFor(n, r, u) == TableFor(m, r, u)
  {
    TablePlace(m, owner, r, u);
    var t1, t0 := Child(m, r, Px(2, u)), TableFor(m, r, u);
    assert IsEntry(m, owner, r, Px(2, u));
    if t1 != -1 {
      assert IsEntry(m, owner, t1, Px(1, u));
      if t0 != -1 {
        assert IsEntry(m, owner, t0, Px(0, u));
      }
    }
  }

  /** A new, empty table changes no translation. */
  lemma GrowLookup(m: Mem, n: Mem, owner: Account, q: int, i: int, p: int, r: int, u: int)
    requires Own(m, owner) && IsEntry(m, owner, q, i) && owner[q].level > 0 && !V(Word(m, q, i))
    requires SameTablesBut(m, n, owner, q, i) && Child(n, q, i) == p && NoEntries(n, p)
    requires IsRoot(owner, r) && 0 <= u < VPNS
    ensures Lookup(n, r, u) == Lookup(m, r, u) && (Lookup(m, r, u) != 0 ==> TableFor(n, r, u) == TableFor(m, r, u))
  {
    TablePlace(m, owner, r, u);
    var t1, t0 := Child(m, r, Px(2, u)), TableFor(m, r, u);
    assert IsEntry(m, owner, r, Px(2, u));
    if t1 != -1 {
      assert IsEntry(m, owner, t1, Px(1, u));
      if t0 != -1 {
        assert IsEntry(m, owner, t0, Px(0, u));
      }
    }
  }
}
