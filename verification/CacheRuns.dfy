/** Clients of the buffer cache: any number of bread ... brelse brackets in
    flight, each step one critical section, and the cache is transparent. */
module CacheRuns {
  import opened BufferList

  datatype Phase =
    | Waiting   // bget has counted the reference; acquiresleep is next
    | Held      // the sleep-lock is held, bread has yet to look at valid
    | Reading   // between bread and brelse
    | Putting   // brelse has released the sleep-lock

  /** One bread ... brelse bracket: a client's use of buffer b as block (dev, blockno). */
  datatype Use = Use(phase: Phase, b: int, dev: int, blockno: int)

  /** mem is what the clients have stored, whatever the cache does; pins counts
      the bpins that log_write has made and install_trans not yet undone. */
  datatype Sys = Sys(c: Cache, disk: Store, mem: Store, uses: map<int, Use>, holder: seq<int>, pins: seq<int>)

  predicate Shape(s: Sys) {
    Sizes(s.c) && |s.holder| == |s.pins| == NBUF
  }

  predicate InUse(s: Sys, h: int) {
    Shape(s) && h in s.uses && IsBuf(s.uses[h].b)
  }

  /** Every buffer is for the same block as before. */
  predicate SameKeys(c: Cache, d: Cache) {
    d.dev == c.dev && d.blockno == c.blockno
  }

  ghost predicate Enters(s: Sys, t: Sys, h: int, p: Phase)
    requires h in s.uses
  {
    t.uses == s.uses[h := Use(p, s.uses[h].b, s.uses[h].dev, s.uses[h].blockno)]
  }

  // ---- steps of client h

  /** bget */
  ghost predicate Get(s: Sys, t: Sys, h: int) {
    && Shape(s) && h !in s.uses && h != NONE && h in t.uses
    && var u := t.uses[h];
    && u.phase.Waiting? && u.dev != 0 && (u.dev, u.blockno) in s.disk && IsBuf(u.b)
    && (Hit(s.c, t.c, u.dev, u.blockno, u.b) || Recycle(s.c, t.c, u.dev, u.blockno, u.b))
    && t.uses == s.uses[h := u]
    && t.disk == s.disk && t.mem == s.mem && t.holder == s.holder && t.pins == s.pins
  }

  /** acquiresleep and releasesleep of the buffer's lock.  The discipline of the
      clients: a change is in the log or on the disk before brelse. */
  ghost predicate Lock(s: Sys, t: Sys, h: int) {
    && InUse(s, h)
    && var u := s.uses[h];
    && t.c == s.c && t.disk == s.disk && t.mem == s.mem && t.pins == s.pins
    && match u.phase
       case Waiting => s.holder[u.b] == NONE && t.holder == s.holder[u.b := h] && Enters(s, t, h, Held)
       case Reading =>
         && (s.pins[u.b] > 0 || ((u.dev, u.blockno) in s.disk && s.c.data[u.b] == s.disk[(u.dev, u.blockno)]))
         && t.holder == s.holder[u.b := NONE] && Enters(s, t, h, Putting)
       case _ => false
  }

  /** The end of brelse, bpin and bunpin. */
  ghost predicate Count(s: Sys, t: Sys, h: int) {
    && InUse(s, h)
    && var u := s.uses[h];
    && t.disk == s.disk && t.mem == s.mem && t.holder == s.holder
    && match u.phase
       case Putting => t.uses == s.uses - {h} && t.pins == s.pins && Put(s.c, t.c, u.b)
       case Reading =>
         && t.uses == s.uses && SameKeys(s.c, t.c)
         && t.c.order == s.c.order && t.c.valid == s.c.valid && t.c.data == s.c.data
         && (|| (t.pins == s.pins[u.b := s.pins[u.b] + 1] && t.c.refcnt == s.c.refcnt[u.b := s.c.refcnt[u.b] + 1])
             || (&& s.pins[u.b] > 0 && t.pins == s.pins[u.b := s.pins[u.b] - 1]
                 && t.c.refcnt == s.c.refcnt[u.b := s.c.refcnt[u.b] - 1]))
       case _ => false
  }

  /** bread's read of the disk, a change by the client, and bwrite. */
  ghost predicate Data(s: Sys, t: Sys, h: int) {
    && InUse(s, h)
    && var u := s.uses[h]; var k := (u.dev, u.blockno);
    && k in s.disk
    && SameKeys(s.c, t.c) && t.c.order == s.c.order && t.c.refcnt == s.c.refcnt
    && t.holder == s.holder && t.pins == s.pins
    && match u.phase
       case Held =>
         && t.disk == s.disk && t.mem == s.mem && Enters(s, t, h, Reading)
         && t.c.valid == s.c.valid[u.b := true]
         && t.c.data == (if s.c.valid[u.b] then s.c.data else s.c.data[u.b := s.disk[k]])
       case Reading =>
         && t.uses == s.uses && t.c.valid == s.c.valid
         && (|| (t.disk == s.disk && IsBuf(u.b) && |t.c.data| == NBUF && t.mem == s.mem[k := t.c.data[u.b]] &&
                 t.c.data == s.c.data[u.b := t.c.data[u.b]])
             || (t.mem == s.mem && t.c.data == s.c.data && t.disk == s.disk[k := s.c.data[u.b]]))
       case _ => false
  }

  ghost predicate Step(s: Sys, t: Sys, h: int) {
    Get(s, t, h) || Lock(s, t, h) || Count(s, t, h) || Data(s, t, h)
  }

  // ---- the invariant

  function Refs(uses: map<int, Use>, b: int): (r: set<int>) {
    set h | h in uses && uses[h].b == b
  }

  predicate Key(s: Sys, b: int, k: (int, int))
    requires Shape(s) && IsBuf(b)
  {
    Holds(s.c, b, k.0, k.1)
  }

  /** b may differ from the disk: it is pinned, or some client is at work on it. */
  predicate Protected(s: Sys, b: int)
    requires Shape(s) && IsBuf(b)
  {
    s.pins[b] > 0 || (s.holder[b] != NONE && s.holder[b] in s.uses && s.uses[s.holder[b]].phase.Reading?)
  }

  predicate CountOk(s: Sys, b: int)
    requires Shape(s) && IsBuf(b)
  {
    s.c.refcnt[b] == |Refs(s.uses, b)| + s.pins[b] && s.pins[b] >= 0
  }

  predicate HolderOk(s: Sys, b: int)
    requires Shape(s) && IsBuf(b)
  {
    var h := s.holder[b];
    h != NONE ==> h in s.uses && s.uses[h].b == b && (s.uses[h].phase.Held? || s.uses[h].phase.Reading?)
  }

  predicate DataOk(s: Sys, b: int)
    requires Shape(s) && IsBuf(b)
  {
    var k := (s.c.dev[b], s.c.blockno[b]);
    && (s.pins[b] > 0 ==> s.c.valid[b])
    && (s.c.valid[b] ==>
          && k in s.disk && k in s.mem && k.0 != 0
          && s.c.data[b] == s.mem[k] && (s.c.data[b] == s.disk[k] || Protected(s, b)))
  }

  predicate UseOk(s: Sys, h: int)
    requires Shape(s) && h in s.uses
  {
    var u := s.uses[h];
    && h != NONE && IsBuf(u.b) && Holds(s.c, u.b, u.dev, u.blockno) && u.dev != 0 && (u.dev, u.blockno) in s.disk
    && (u.phase.Held? || u.phase.Reading? ==> s.holder[u.b] == h)
    && (u.phase.Reading? ==> s.c.valid[u.b])
  }

  /** A block with no valid buffer is on the disk. */
  ghost predicate BlockOk(s: Sys, k: (int, int))
    requires Shape(s)
  {
    k in s.disk && k.0 != 0 && (forall b :: IsBuf(b) && s.c.valid[b] ==> !Key(s, b, k)) ==>
      Stored(s, k)
  }

  predicate Stored(s: Sys, k: (int, int)) {
    k in s.disk && k in s.mem && s.mem[k] == s.disk[k]
  }

  /** At most one buffer for a block. */
  predicate Unique(s: Sys, a: int, b: int)
    requires Shape(s) && IsBuf(a) && IsBuf(b)
  {
    a != b && s.c.dev[a] == s.c.dev[b] && s.c.blockno[a] == s.c.blockno[b] ==> s.c.dev[a] == 0
  }

  ghost predicate Inv(s: Sys) {
    && Shape(s) && IsList(s.c.order) && |s.c.order| == NBUF
    && (forall b :: IsBuf(b) ==> CountOk(s, b) && HolderOk(s, b) && DataOk(s, b))
    && (forall h :: h in s.uses ==> UseOk(s, h))
    && (forall k :: k in s.disk ==> BlockOk(s, k))
    && (forall a, b :: IsBuf(a) && IsBuf(b) ==> Unique(s, a, b))
  }

  // ---- what the steps keep

  lemma RefsAdd(uses: map<int, Use>, h: int, u: Use, b: int)
    requires h !in uses
    ensures |Refs(uses[h := u], b)| == |Refs(uses, b)| + if u.b == b then 1 else 0
  {
    var v := uses[h := u];
    assert Refs(v, b) == if u.b == b then Refs(uses, b) + {h} else Refs(uses, b);
  }

  lemma RefsDrop(uses: map<int, Use>, h: int, b: int)
    requires h in uses
    ensures |Refs(uses - {h}, b)| == |Refs(uses, b)| - if uses[h].b == b then 1 else 0
  {
    assert Refs(uses - {h}, b) == Refs(uses, b) - {h};
  }

  lemma RefsSame(uses: map<int, Use>, h: int, u: Use, b: int)
    requires h in uses && uses[h].b == u.b
    ensures Refs(uses[h := u], b) == Refs(uses, b)
  {
  }

  /** A buffer without references is nobody's. */
  lemma Unreferenced(s: Sys, b: int, h: int)
    requires Shape(s) && IsBuf(b) && CountOk(s, b) && s.c.refcnt[b] == 0
    ensures s.pins[b] == 0 && Refs(s.uses, b) == {}
    ensures h in s.uses ==> s.uses[h].b != b
  {
    assert h in s.uses && s.uses[h].b == b ==> h in Refs(s.uses, b);
  }

  lemma CountKept(s: Sys, t: Sys, h: int, b: int)
    requires Step(s, t, h) && Shape(t) && IsBuf(b) && CountOk(s, b)
    ensures CountOk(t, b)
  {
    if Get(s, t, h) {
      RefsAdd(s.uses, h, t.uses[h], b);
    } else if t.uses == s.uses - {h} {
      RefsDrop(s.uses, h, b);
    } else {
      RefsSame(s.uses, h, t.uses[h], b);
    }
  }

  lemma OrderKept(s: Sys, t: Sys, h: int)
    requires Step(s, t, h) && IsList(s.c.order) && |s.c.order| == NBUF
    ensures Shape(t) && IsList(t.c.order) && |t.c.order| == NBUF
  {
    if t.c.order != s.c.order {
      NoneLeftOut(s.c.order, s.uses[h].b);
      ToFrontList(s.c.order, s.uses[h].b);
    }
  }

  lemma HolderKept(s: Sys, t: Sys, h: int, b: int)
    requires Step(s, t, h) && Shape(t) && IsBuf(b) && HolderOk(s, b)
    requires h in s.uses ==> UseOk(s, h)
    ensures HolderOk(t, b)
  {}

  lemma DataKeptGet(s: Sys, t: Sys, h: int, b: int)
    requires Get(s, t, h) && Shape(t) && IsBuf(b) && DataOk(s, b) && CountOk(s, b) && HolderOk(s, b)
    ensures DataOk(t, b)
  {}

  lemma DataKeptLock(s: Sys, t: Sys, h: int, b: int)
    requires Lock(s, t, h) && Shape(t) && IsBuf(b) && DataOk(s, b) && HolderOk(s, b) && UseOk(s, h)
    ensures DataOk(t, b)
  {}

  lemma DataKeptData(s: Sys, t: Sys, h: int, b: int)
    requires Data(s, t, h) && Shape(t) && IsBuf(b) && DataOk(s, b) && HolderOk(s, b) && UseOk(s, h)
    requires Unique(s, b, s.uses[h].b)
    requires !s.c.valid[b] && s.uses[h].b == b ==> Stored(s, (s.uses[h].dev, s.uses[h].blockno))
    ensures DataOk(t, b)
  {}

  lemma DataKept(s: Sys, t: Sys, h: int, b: int)
    requires Step(s, t, h) && Shape(t) && IsBuf(b) && DataOk(s, b) && CountOk(s, b) && HolderOk(s, b)
    requires h in s.uses ==> UseOk(s, h) && Unique(s, b, s.uses[h].b)
    requires h in s.uses && !s.c.valid[b] && s.uses[h].b == b ==> Stored(s, (s.uses[h].dev, s.uses[h].blockno))
    ensures DataOk(t, b)
  {
    if Get(s, t, h) {
      DataKeptGet(s, t, h, b);
    } else if Lock(s, t, h) {
      DataKeptLock(s, t, h, b);
    } else if Count(s, t, h) {
    } else {
      DataKeptData(s, t, h, b);
    }
  }

  lemma UseKept(s: Sys, t: Sys, h: int, g: int)
    requires Step(s, t, h) && Shape(t) && g in t.uses
    requires forall x :: x in s.uses && (x == g || x == h) ==> UseOk(s, x)
    requires h !in s.uses && h in t.uses && IsBuf(t.uses[h].b) ==> CountOk(s, t.uses[h].b)
    ensures UseOk(t, g)
  {
    if Get(s, t, h) && !Hit(s.c, t.c, t.uses[h].dev, t.uses[h].blockno, t.uses[h].b) {
      Unreferenced(s, t.uses[h].b, g);
    }
  }

  /** A valid buffer stays valid for its block, unless the disk has its contents. */
  lemma StillCached(s: Sys, t: Sys, h: int, b: int, k: (int, int))
    requires Step(s, t, h) && Shape(t) && IsBuf(b) && s.c.valid[b] && Key(s, b, k)
    requires DataOk(s, b) && CountOk(s, b) && HolderOk(s, b)
    ensures (t.c.valid[b] && Key(t, b, k)) || (Get(s, t, h) && Stored(s, k))
  {
    if Get(s, t, h) && s.c.refcnt[b] == 0 {
      Unreferenced(s, b, s.holder[b]);
    }
  }

  lemma BlockKept(s: Sys, t: Sys, h: int, k: (int, int))
    requires Step(s, t, h) && Shape(t) && (k in s.disk ==> BlockOk(s, k))
    requires h in s.uses ==> UseOk(s, h)
    requires forall b :: IsBuf(b) ==> DataOk(s, b) && CountOk(s, b) && HolderOk(s, b)
    ensures BlockOk(t, k)
  {
    if b :| IsBuf(b) && s.c.valid[b] && Key(s, b, k) {
      StillCached(s, t, h, b, k);
    } else if h in s.uses {
      assert t.c.valid[s.uses[h].b] && Key(t, s.uses[h].b, k) ==> BlockOk(t, k);
    }
  }

  lemma UniqueKept(s: Sys, t: Sys, h: int, a: int, b: int)
    requires Step(s, t, h) && Shape(t) && IsBuf(a) && IsBuf(b) && Unique(s, a, b)
    ensures Unique(t, a, b)
  {
  }

  /** Before bread fills a buffer, the disk has the block's latest contents. */
  lemma FillStored(s: Sys, h: int)
    requires Shape(s) && h in s.uses && UseOk(s, h) && !s.c.valid[s.uses[h].b]
    requires BlockOk(s, (s.uses[h].dev, s.uses[h].blockno))
    requires forall a :: IsBuf(a) ==> Unique(s, a, s.uses[h].b)
    ensures Stored(s, (s.uses[h].dev, s.uses[h].blockno))
  {
    var k := (s.uses[h].dev, s.uses[h].blockno);
    forall a | IsBuf(a) && s.c.valid[a] ensures !Key(s, a, k) {
      assert Unique(s, a, s.uses[h].b);
    }
  }

  lemma BufsKept(s: Sys, t: Sys, h: int)
    requires Inv(s) && Step(s, t, h) && Shape(t)
    ensures forall b :: IsBuf(b) ==> CountOk(t, b) && HolderOk(t, b) && DataOk(t, b)
  {
    forall b | IsBuf(b) ensures CountOk(t, b) && HolderOk(t, b) && DataOk(t, b) {
      CountKept(s, t, h, b);
      HolderKept(s, t, h, b);
      if h in s.uses {
        assert UseOk(s, h);
        assert Unique(s, b, s.uses[h].b);
        if !s.c.valid[b] && s.uses[h].b == b {
          FillStored(s, h);
        }
      }
      DataKept(s, t, h, b);
    }
  }

  lemma InvStep(s: Sys, t: Sys, h: int)
    requires Inv(s) && Step(s, t, h)
    ensures Inv(t)
  {
    OrderKept(s, t, h);
    BufsKept(s, t, h);
    forall g | g in t.uses ensures UseOk(t, g) {
      UseKept(s, t, h, g);
    }
    forall k | k in t.disk ensures BlockOk(t, k) {
      BlockKept(s, t, h, k);
    }
    forall a, b | IsBuf(a) && IsBuf(b) ensures Unique(t, a, b) {
      UniqueKept(s, t, h, a, b);
    }
  }

  // ---- runs

  /** binit has run; nothing is cached. */
  ghost predicate Start(s: Sys) {
    && Shape(s) && IsList(s.c.order) && |s.c.order| == NBUF
    && s.mem == s.disk && s.uses == map[]
    && forall b :: IsBuf(b) ==>
         && s.c.dev[b] == 0 && s.c.blockno[b] == 0 && !s.c.valid[b] && s.c.refcnt[b] == 0
         && s.holder[b] == NONE && s.pins[b] == 0
  }

  ghost predicate Next(s: Sys, t: Sys) {
    exists h :: Step(s, t, h)
  }

  ghost predicate Run(r: seq<Sys>) {
    r != [] && Start(r[0]) && forall i {:trigger NextAt(r, i)} :: NextAt(r, i)
  }

  ghost predicate NextAt(r: seq<Sys>, i: int) {
    0 <= i < |r| - 1 ==> Next(r[i], r[i + 1])
  }

  lemma InvNext(s: Sys, t: Sys)
    requires Inv(s) && Next(s, t)
    ensures Inv(t)
  {
    var h :| Step(s, t, h);
    InvStep(s, t, h);
  }

  lemma InvStart(s: Sys)
    requires Start(s)
    ensures Inv(s)
  {
    forall b | IsBuf(b) ensures CountOk(s, b) && HolderOk(s, b) && DataOk(s, b) {
      assert Refs(s.uses, b) == {};
    }
  }

  lemma {:induction false} InvRun(r: seq<Sys>, i: nat)
    requires Run(r) && i < |r|
    ensures Inv(r[i])
  {
    if i == 0 {
      InvStart(r[0]);
    } else {
      InvRun(r, i - 1);
      assert NextAt(r, i - 1);
      InvNext(r[i - 1], r[i]);
    }
  }

  /** bread returns the latest contents, in every run and whatever was recycled. */
  lemma Transparent(r: seq<Sys>, i: nat, h: int)
    requires Run(r) && i < |r| && h in r[i].uses && r[i].uses[h].phase.Reading?
    ensures var s := r[i]; var u := s.uses[h];
      && InUse(s, h) && Holds(s.c, u.b, u.dev, u.blockno)
      && (u.dev, u.blockno) in s.mem && s.c.data[u.b] == s.mem[(u.dev, u.blockno)]
  {
    InvRun(r, i);
    assert UseOk(r[i], h);
    assert DataOk(r[i], r[i].uses[h].b);
  }

  /** No two buffers ever hold the same block, and the list always has every buffer once. */
  lemma OneBufferPerBlock(r: seq<Sys>, i: nat, a: int, b: int)
    requires Run(r) && i < |r| && IsBuf(a) && IsBuf(b) && a != b
    ensures Shape(r[i]) && Unique(r[i], a, b)
    ensures IsList(r[i].c.order) && |r[i].c.order| == NBUF && a in r[i].c.order
  {
    InvRun(r, i);
    NoneLeftOut(r[i].c.order, a);
  }

  /** A block stays in its buffer for as long as the buffer is referenced, and
      every bracket in flight is a reference. */
  lemma NeverRecycledInUse(r: seq<Sys>, i: nat, b: int)
    requires Run(r) && i + 1 < |r| && IsBuf(b)
    ensures var s, t := r[i], r[i + 1];
      && Shape(s) && Shape(t)
      && (s.c.refcnt[b] > 0 ==>
            && t.c.dev[b] == s.c.dev[b] && t.c.blockno[b] == s.c.blockno[b]
            && (s.c.valid[b] ==> t.c.valid[b]))
      && (forall h :: h in s.uses && s.uses[h].b == b ==> s.c.refcnt[b] > 0)
  {
    InvRun(r, i);
    assert NextAt(r, i);
    KeptInUse(r[i], r[i + 1], b);
  }

  lemma KeptInUse(s: Sys, t: Sys, b: int)
    requires Inv(s) && Next(s, t) && IsBuf(b)
    ensures Shape(t)
    ensures s.c.refcnt[b] > 0 ==>
      && t.c.dev[b] == s.c.dev[b] && t.c.blockno[b] == s.c.blockno[b] && (s.c.valid[b] ==> t.c.valid[b])
    ensures forall h :: h in s.uses && s.uses[h].b == b ==> s.c.refcnt[b] > 0
  {
    InvNext(s, t);
    var g :| Step(s, t, g);
    if s.c.refcnt[b] > 0 {
      KeptByStep(s, t, g, b);
    }
    assert CountOk(s, b);
    forall h | h in s.uses && s.uses[h].b == b ensures s.c.refcnt[b] > 0 {
      assert h in Refs(s.uses, b);
    }
  }

  lemma KeptByStep(s: Sys, t: Sys, h: int, b: int)
    requires Shape(s) && Shape(t) && Step(s, t, h) && IsBuf(b) && s.c.refcnt[b] > 0
    ensures t.c.dev[b] == s.c.dev[b] && t.c.blockno[b] == s.c.blockno[b] && (s.c.valid[b] ==> t.c.valid[b])
  {}

  /** Once every bracket is closed and every pin undone, the disk has it all. */
  lemma QuiescentDisk(r: seq<Sys>, i: nat, k: (int, int))
    requires Run(r) && i < |r| && r[i].uses == map[] && (forall b :: IsBuf(b) && b < |r[i].pins| ==> r[i].pins[b] == 0)
    requires k in r[i].disk && k.0 != 0
    ensures k in r[i].mem && r[i].mem[k] == r[i].disk[k]
  {
    var s := r[i];
    InvRun(r, i);
    assert BlockOk(s, k);
    if b :| IsBuf(b) && s.c.valid[b] && Key(s, b, k) {
      assert DataOk(s, b) && HolderOk(s, b);
    }
  }

  // ---- what can happen

  /** The contents of a block, as the clients see them, change only when a client
      inside its bracket changes its buffer, and then to what it put there. */
  lemma OnlyStoresCount(s: Sys, t: Sys, h: int)
    requires Step(s, t, h) && t.mem != s.mem
    ensures InUse(s, h) && s.uses[h].phase.Reading? && |t.c.data| == NBUF
    ensures var u := s.uses[h]; t.mem == s.mem[(u.dev, u.blockno) := t.c.data[u.b]]
  {}

  function Last(r: seq<Sys>): (s: Sys)
    requires r != []
  {
    r[|r| - 1]
  }

  lemma Append(r: seq<Sys>, t: Sys, h: int) returns (r2: seq<Sys>)
    requires Run(r) && Step(Last(r), t, h)
    ensures Run(r2) && r <= r2 && Last(r2) == t
  {
    r2 := r + [t];
    assert Next(Last(r), t);
    forall i ensures NextAt(r2, i) {
      assert NextAt(r, i);
    }
  }

  /** bget finds the block in b, or may give it b. */
  ghost predicate Available(s: Sys, dev: int, blockno: int, b: int)
    requires Sizes(s.c)
  {
    IsBuf(b) && if Cached(s.c, dev, blockno) then Holds(s.c, b, dev, blockno) else LeastRecent(s.c, b)
  }

  /** A client can open a bracket on any block whose buffer is free to lock, and
      then reads the latest contents. */
  lemma CanBread(r: seq<Sys>, h: int, dev: int, blockno: int, b: int) returns (r2: seq<Sys>)
    requires Run(r) && Shape(Last(r)) && h !in Last(r).uses && h != NONE && dev != 0 && (dev, blockno) in Last(r).disk
    requires Available(Last(r), dev, blockno, b) && Last(r).holder[b] == NONE
    ensures Run(r2) && r <= r2 && Shape(Last(r2)) && Last(r2).uses == Last(r).uses[h := Use(Reading, b, dev, blockno)]
    ensures Last(r2).mem == Last(r).mem && (dev, blockno) in Last(r).mem
    ensures Last(r2).c.data[b] == Last(r).mem[(dev, blockno)]
  {
    var r1 := Getting(r, h, dev, blockno, b);
    var s := Last(r1);
    var s1 := s.(holder := s.holder[b := h], uses := s.uses[h := Use(Held, b, dev, blockno)]);
    assert Lock(s, s1, h);
    var r3 := Append(r1, s1, h);
    var data := if s.c.valid[b] then s.c.data else s.c.data[b := s.disk[(dev, blockno)]];
    var s2 := s1.(c := s1.c.(valid := s1.c.valid[b := true], data := data),
                  uses := s1.uses[h := Use(Reading, b, dev, blockno)]);
    assert Data(s1, s2, h);
    r2 := Append(r3, s2, h);
    Transparent(r2, |r2| - 1, h);
  }

  lemma Getting(r: seq<Sys>, h: int, dev: int, blockno: int, b: int) returns (r2: seq<Sys>)
    requires Run(r) && Shape(Last(r)) && h !in Last(r).uses && h != NONE && dev != 0 && (dev, blockno) in Last(r).disk
    requires Available(Last(r), dev, blockno, b)
    ensures Run(r2) && r <= r2 && Shape(Last(r2)) && Holds(Last(r2).c, b, dev, blockno)
    ensures Last(r2) == Last(r).(c := Last(r2).c, uses := Last(r).uses[h := Use(Waiting, b, dev, blockno)])
  {
    var s := Last(r);
    var c := if Cached(s.c, dev, blockno) then s.c.(refcnt := s.c.refcnt[b := s.c.refcnt[b] + 1])
             else s.c.(dev := s.c.dev[b := dev], blockno := s.c.blockno[b := blockno],
                       valid := s.c.valid[b := false], refcnt := s.c.refcnt[b := 1]);
    var t := s.(c := c, uses := s.uses[h := Use(Waiting, b, dev, blockno)]);
    assert Get(s, t, h);
    r2 := Append(r, t, h);
  }

  /** Inside its bracket a client can store anything, and that is the latest from then on. */
  lemma CanStore(r: seq<Sys>, h: int, v: Block) returns (r2: seq<Sys>)
    requires Run(r) && InUse(Last(r), h) && Last(r).uses[h].phase.Reading?
    ensures Run(r2) && r <= r2 && Last(r2).uses == Last(r).uses
    ensures var u := Last(r).uses[h]; Last(r2).mem == Last(r).mem[(u.dev, u.blockno) := v]
  {
    InvRun(r, |r| - 1);
    var s := Last(r);
    var u := s.uses[h];
    assert UseOk(s, h);
    var t := s.(c := s.c.(data := s.c.data[u.b := v]), mem := s.mem[(u.dev, u.blockno) := v]);
    assert Data(s, t, h);
    r2 := Append(r, t, h);
  }
}
