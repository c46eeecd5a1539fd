/** The buffer cache of kernel/bio.c as the code has it: buffers 0 .. NBUF - 1
    and the list head NBUF, linked both ways through prev and next, and one
    method for each critical section under bcache.lock or a buffer's sleep-lock. */
module BufferList {
  import opened Sets

  const NBUF := 30
  const HEAD := 30   // &bcache.head
  const NONE := -1

  datatype Block = Block(bytes: seq<int>)
  type Store = map<(int, int), Block>   // (dev, blockno) to contents

  predicate IsBuf(b: int) {
    0 <= b < NBUF
  }

  // ---- the list, most recently used first

  predicate IsList(l: seq<int>) {
    Distinct(l) && forall b :: b in l ==> IsBuf(b)
  }

  /** The k-th node of the ring: the head, then the buffers, then the head again. */
  function Node(l: seq<int>, k: int): (x: int)
    requires IsList(l)
    ensures 0 <= x <= NBUF && (x == HEAD <==> !(1 <= k <= |l|))
  {
    if 1 <= k <= |l| then assert l[k - 1] in l; l[k - 1] else HEAD
  }

  predicate Linked(l: seq<int>, next: seq<int>, prev: seq<int>, k: int)
    requires |next| == |prev| == NBUF + 1 && IsList(l)
  {
    next[Node(l, k)] == Node(l, k + 1) && prev[Node(l, k + 1)] == Node(l, k)
  }

  /** next and prev are one cycle: the head followed by l. */
  ghost predicate Ring(l: seq<int>, next: seq<int>, prev: seq<int>) {
    && |next| == |prev| == NBUF + 1 && IsList(l)
    && forall k {:trigger Linked(l, next, prev, k)} :: 0 <= k <= |l| ==> Linked(l, next, prev, k)
  }

  function Without(l: seq<int>, b: int): (r: seq<int>)
    ensures forall x {:trigger x in r} :: x in r <==> x in l && x != b
  {
    if l == [] then [] else if l[0] == b then Without(l[1..], b) else [l[0]] + Without(l[1..], b)
  }

  /** Where b's neighbours in l end up once b is gone. */
  lemma {:induction false} WithoutAt(l: seq<int>, k: nat)
    requires k < |l| && Distinct(l)
    ensures Without(l, l[k]) == l[..k] + l[k + 1..]
  {
    var m := l[1..];
    DistinctTail(l);
    CutTail(l, k);
    if k == 0 {
      WithoutMiss(m, l[0]);
    } else {
      assert l[k] == m[k - 1] && m[k - 1] in m;
      WithoutAt(m, k - 1);
    }
  }

  lemma CutTail(l: seq<int>, k: nat)
    requires k < |l|
    ensures l[..k] + l[k + 1..] == if k == 0 then l[1..] else [l[0]] + (l[1..][..k - 1] + l[1..][k - 1 + 1..])
  {}

  lemma {:induction false} WithoutMiss(l: seq<int>, b: int)
    requires b !in l
    ensures Without(l, b) == l
  {
    if l != [] {
      WithoutMiss(l[1..], b);
    }
  }

  lemma WithoutList(l: seq<int>, k: nat)
    requires k < |l| && IsList(l)
    ensures IsList(Without(l, l[k])) && |Without(l, l[k])| == |l| - 1
  {
    WithoutAt(l, k);
    DistinctCut(l, k);
  }

  lemma ToFrontList(l: seq<int>, b: int)
    requires IsList(l) && b in l
    ensures IsList([b] + Without(l, b)) && |[b] + Without(l, b)| == |l|
  {
    var k :| 0 <= k < |l| && l[k] == b;
    WithoutList(l, k);
    DistinctPrepend(b, Without(l, b));
  }

  lemma NodesDiffer(l: seq<int>, i: int, j: int)
    requires IsList(l) && 0 <= i <= |l| && 1 <= j <= |l| && i != j
    ensures Node(l, i) != Node(l, j)
  {
    DistinctPairs(l);
    assert l[j - 1] in l;
  }

  /** b->next->prev = b->prev; b->prev->next = b->next */
  lemma UnlinkRing(l: seq<int>, k: nat, next: seq<int>, prev: seq<int>)
    requires Ring(l, next, prev) && k < |l|
    ensures IsBuf(l[k]) && 0 <= next[l[k]] <= NBUF && 0 <= prev[l[k]] <= NBUF
    ensures Ring(Without(l, l[k]), next[prev[l[k]] := next[l[k]]], prev[next[l[k]] := prev[l[k]]])
  {
    var b, m := l[k], Without(l, l[k]);
    WithoutAt(l, k);
    WithoutList(l, k);
    assert b in l && Linked(l, next, prev, k) && Linked(l, next, prev, k + 1);
    var next2, prev2 := next[prev[b] := next[b]], prev[next[b] := prev[b]];
    forall i | 0 <= i <= |m| ensures Linked(m, next2, prev2, i) {
      UnlinkAt(l, k, next, prev, i);
    }
  }

  lemma UnlinkAt(l: seq<int>, k: nat, next: seq<int>, prev: seq<int>, i: nat)
    requires Ring(l, next, prev) && k < |l| && i < |l| && l[k] in l
    requires Without(l, l[k]) == l[..k] + l[k + 1..] && IsList(Without(l, l[k]))
    requires prev[l[k]] == Node(l, k) && next[l[k]] == Node(l, k + 2)
    ensures Linked(Without(l, l[k]), next[prev[l[k]] := next[l[k]]], prev[next[l[k]] := prev[l[k]]], i)
  {
    var m := Without(l, l[k]);
    if i < k {
      assert Node(m, i) == Node(l, i) && Node(m, i + 1) == Node(l, i + 1);
      UnlinkBefore(l, k, next, prev, i);
    } else if i == k {
      assert Node(m, i) == Node(l, i) && Node(m, i + 1) == Node(l, i + 2);
    } else {
      assert Node(m, i) == Node(l, i + 1) && Node(m, i + 1) == Node(l, i + 2);
      UnlinkAfter(l, k, next, prev, i);
    }
  }

  lemma UnlinkBefore(l: seq<int>, k: nat, next: seq<int>, prev: seq<int>, i: nat)
    requires Ring(l, next, prev) && i < k < |l|
    ensures next[Node(l, k) := Node(l, k + 2)][Node(l, i)] == Node(l, i + 1)
    ensures prev[Node(l, k + 2) := Node(l, k)][Node(l, i + 1)] == Node(l, i)
  {
    assert Linked(l, next, prev, i);
    NodesDiffer(l, i, k);
    if k + 2 <= |l| {
      NodesDiffer(l, i + 1, k + 2);
    } else {
      NodesDiffer(l, 0, i + 1);
    }
  }

  lemma UnlinkAfter(l: seq<int>, k: nat, next: seq<int>, prev: seq<int>, i: nat)
    requires Ring(l, next, prev) && k < i < |l|
    ensures next[Node(l, k) := Node(l, k + 2)][Node(l, i + 1)] == Node(l, i + 2)
    ensures prev[Node(l, k + 2) := Node(l, k)][Node(l, i + 2)] == Node(l, i + 1)
  {
    assert Linked(l, next, prev, i + 1);
    NodesDiffer(l, k, i + 1);
    if i + 2 <= |l| {
      NodesDiffer(l, i + 2, k + 2);
    } else {
      NodesDiffer(l, 0, k + 2);
    }
  }

  /** b->next = head.next; b->prev = &head; head.next->prev = b; head.next = b */
  lemma LinkRing(l: seq<int>, b: int, next: seq<int>, prev: seq<int>)
    requires Ring(l, next, prev) && IsBuf(b) && b !in l
    ensures 0 <= next[HEAD] <= NBUF
    ensures Ring([b] + l, next[b := next[HEAD]][HEAD := b], prev[b := HEAD][next[HEAD] := b])
  {
    var m := [b] + l;
    DistinctPrepend(b, l);
    assert Linked(l, next, prev, 0);
    assert Node(l, 0) == HEAD;
    var next2, prev2 := next[b := next[HEAD]][HEAD := b], prev[b := HEAD][next[HEAD] := b];
    forall i | 0 <= i <= |m| ensures Linked(m, next2, prev2, i) {
      if i > 0 {
        assert Linked(l, next, prev, i - 1);
        if i > 1 {
          assert Node(m, i) == Node(l, i - 1);
          NodesDiffer(l, 0, i - 1);
        }
        assert Node(m, i + 1) == Node(l, i);
        if 1 < i <= |l| {
          NodesDiffer(l, 1, i);
        }
      }
    }
  }

  function Elements(l: seq<int>): (e: set<int>) {
    set x | x in l
  }

  lemma {:induction false} ElementsCount(l: seq<int>)
    requires Distinct(l)
    ensures |Elements(l)| == |l|
  {
    if l != [] {
      var m := l[1..];
      DistinctTail(l);
      ElementsCount(m);
      assert l == [l[0]] + m;
      assert Elements(l) == Elements(m) + {l[0]};
    }
  }

  lemma {:induction false} RangeCount(n: nat, e: set<int>)
    requires forall x :: x in e ==> 0 <= x < n
    ensures |e| <= n
  {
    if n > 0 {
      RangeCount(n - 1, e - {n - 1});
      if n - 1 in e {
        assert |e| == |e - {n - 1}| + 1;
      } else {
        assert e - {n - 1} == e;
      }
    } else if e != {} {
      NonEmpty(e);
      assert false;
    }
  }

  /** A list of NBUF different buffers leaves none out. */
  lemma NoneLeftOut(l: seq<int>, b: int)
    requires IsList(l) && |l| == NBUF && IsBuf(b)
    ensures b in l
  {
    ElementsCount(l);
    if b !in l {
      RangeCount(NBUF, Elements(l) + {b});
    }
  }

  // ---- one critical section each, on values

  /** What bcache.lock protects.  key is split into dev and blockno. */
  datatype Cache = Cache(order: seq<int>, dev: seq<int>, blockno: seq<int>, valid: seq<bool>, refcnt: seq<int>,
                         data: seq<Block>)

  predicate Sizes(c: Cache) {
    |c.dev| == |c.blockno| == |c.valid| == |c.refcnt| == |c.data| == NBUF
  }

  predicate Holds(c: Cache, b: int, dev: int, blockno: int)
    requires Sizes(c) && IsBuf(b)
  {
    c.dev[b] == dev && c.blockno[b] == blockno
  }

  ghost predicate Cached(c: Cache, dev: int, blockno: int)
    requires Sizes(c)
  {
    exists b :: IsBuf(b) && Holds(c, b, dev, blockno)
  }

  ghost predicate AllBusy(c: Cache)
    requires Sizes(c)
  {
    forall b {:trigger c.refcnt[b]} :: IsBuf(b) ==> c.refcnt[b] != 0
  }

  /** bget finds the block in buffer b. */
  ghost predicate Hit(c: Cache, d: Cache, dev: int, blockno: int, b: int)
    requires Sizes(c)
  {
    && IsBuf(b) && Holds(c, b, dev, blockno)
    && d.order == c.order && d.dev == c.dev && d.blockno == c.blockno && d.valid == c.valid && d.data == c.data
    && d.refcnt == c.refcnt[b := c.refcnt[b] + 1]
  }

  /** b is the unused buffer released longest ago. */
  ghost predicate LeastRecent(c: Cache, b: int)
    requires Sizes(c)
  {
    exists k :: 0 <= k < |c.order| && c.order[k] == b && IsBuf(b) && c.refcnt[b] == 0 &&
      forall j :: k < j < |c.order| ==> IsBuf(c.order[j]) && c.refcnt[c.order[j]] != 0
  }

  /** bget gives the block the buffer b. */
  ghost predicate Recycle(c: Cache, d: Cache, dev: int, blockno: int, b: int)
    requires Sizes(c)
  {
    && !Cached(c, dev, blockno) && LeastRecent(c, b)
    && d.order == c.order && d.data == c.data
    && d.dev == c.dev[b := dev] && d.blockno == c.blockno[b := blockno]
    && d.valid == c.valid[b := false] && d.refcnt == c.refcnt[b := 1]
  }

  /** The part of brelse under bcache.lock. */
  ghost predicate Put(c: Cache, d: Cache, b: int)
    requires Sizes(c) && IsBuf(b)
  {
    && d.dev == c.dev && d.blockno == c.blockno && d.valid == c.valid && d.data == c.data
    && d.refcnt == c.refcnt[b := c.refcnt[b] - 1]
    && d.order == if c.refcnt[b] == 1 then [b] + Without(c.order, b) else c.order
  }

  // ---- the code

  class BufferCache {
    const next: array<int>
    const prev: array<int>
    const dev: array<int>
    const blockno: array<int>
    const valid: array<bool>
    const refcnt: array<int>
    const data: array<Block>
    var disk: Store
    ghost var order: seq<int>

    ghost predicate Apart() {
      && next != prev && next != dev && next != blockno && next != refcnt
      && prev != dev && prev != blockno && prev != refcnt
      && dev != blockno && dev != refcnt && blockno != refcnt
      && next.Length == prev.Length == NBUF + 1
      && dev.Length == blockno.Length == valid.Length == refcnt.Length == data.Length == NBUF
    }

    /** The list is one cycle through the head and every buffer. */
    ghost predicate Valid()
      reads this, next, prev
    {
      Apart() && |order| == NBUF && Ring(order, next[..], prev[..])
    }

    ghost function Snapshot(): (c: Cache)
      reads this, dev, blockno, valid, refcnt, data
      requires Apart()
      ensures Sizes(c)
    {
      Cache(order, dev[..], blockno[..], valid[..], refcnt[..], data[..])
    }

    /** Puts an unlinked buffer at the front. */
    method Link(b: int)
      requires Apart() && IsBuf(b) && b !in order && Ring(order, next[..], prev[..])
      modifies next, prev, this`order
      ensures order == [b] + old(order) && Ring(order, next[..], prev[..])
    {
      LinkRing(order, b, next[..], prev[..]);
      next[b] := next[HEAD];
      prev[b] := HEAD;
      prev[next[HEAD]] := b;
      next[HEAD] := b;
      order := [b] + order;
    }

    method Unlink(b: int, ghost k: nat)
      requires Apart() && k < |order| && order[k] == b && Ring(order, next[..], prev[..])
      modifies next, prev, this`order
      ensures order == Without(old(order), b) && Ring(order, next[..], prev[..])
    {
      UnlinkRing(order, k, next[..], prev[..]);
      prev[next[b]] := prev[b];
      next[prev[b]] := next[b];
      order := Without(order, b);
    }

    /** binit */
    constructor (d: Store)
      ensures Valid() && fresh(next) && fresh(prev) && fresh(dev) && fresh(blockno) && fresh(valid)
      ensures fresh(refcnt) && fresh(data)
      ensures disk == d
      ensures forall b :: IsBuf(b) ==> dev[b] == 0 && blockno[b] == 0 && !valid[b] && refcnt[b] == 0
    {
      disk := d;
      next := new int[NBUF + 1](_ => HEAD);
      prev := new int[NBUF + 1](_ => HEAD);
      dev := new int[NBUF](_ => 0);
      blockno := new int[NBUF](_ => 0);
      valid := new bool[NBUF](_ => false);
      refcnt := new int[NBUF](_ => 0);
      data := new Block[NBUF](_ => Block([]));
      order := [];
      new;
      var b := 0;
      assert forall k :: k == 0 ==> Linked([], next[..], prev[..], k);
      while b < NBUF
        invariant 0 <= b <= NBUF && Apart() && disk == d
        invariant |order| == b && Ring(order, next[..], prev[..])
        invariant forall x :: x in order ==> x < b
        invariant fresh(next) && fresh(prev)
        invariant forall b :: IsBuf(b) ==> dev[b] == 0 && blockno[b] == 0 && !valid[b] && refcnt[b] == 0
      {
        Link(b);
        b := b + 1;
      }
    }

    /** bget's first loop: the buffer that holds the block. */
    method Find(d: int, n: int) returns (b: int)
      requires Valid()
      ensures b == HEAD || (IsBuf(b) && Holds(Snapshot(), b, d, n))
      ensures b == HEAD ==> !Cached(Snapshot(), d, n)
    {
      ghost var k := 1;
      assert Linked(order, next[..], prev[..], 0);
      b := next[HEAD];
      while b != HEAD
        invariant 1 <= k <= NBUF + 1 && b == Node(order, k)
        invariant forall j :: 0 <= j < k - 1 ==> IsBuf(order[j]) && !Holds(Snapshot(), order[j], d, n)
        decreases NBUF + 1 - k
      {
        if dev[b] == d && blockno[b] == n {
          return;
        }
        assert Linked(order, next[..], prev[..], k);
        b := next[b];
        k := k + 1;
      }
      forall x | IsBuf(x) ensures !Holds(Snapshot(), x, d, n) {
        NoneLeftOut(order, x);
        var j :| 0 <= j < |order| && order[j] == x;
      }
    }

    /** bget's second loop: the unused buffer released longest ago. */
    method FindUnused() returns (b: int)
      requires Valid()
      ensures b == HEAD || (IsBuf(b) && LeastRecent(Snapshot(), b))
      ensures b == HEAD ==> AllBusy(Snapshot())
    {
      ghost var k := NBUF;
      assert Linked(order, next[..], prev[..], NBUF);
      b := prev[HEAD];
      while b != HEAD
        invariant 0 <= k <= NBUF && b == Node(order, k)
        invariant forall j :: k <= j < NBUF ==> IsBuf(order[j]) && refcnt[order[j]] != 0
        decreases k
      {
        if refcnt[b] == 0 {
          assert order[k - 1] == b;
          return;
        }
        assert Linked(order, next[..], prev[..], k - 1);
        b := prev[b];
        k := k - 1;
      }
      forall x | IsBuf(x) ensures refcnt[x] != 0 {
        NoneLeftOut(order, x);
        var j :| 0 <= j < |order| && order[j] == x;
      }
    }

    /** bget up to release(&bcache.lock); NONE where the code panics. */
    method Bget(d: int, n: int) returns (b: int)
      requires Valid()
      modifies dev, blockno, valid, refcnt
      ensures Valid()
      ensures b == NONE ==> Snapshot() == old(Snapshot())
      ensures b == NONE <==> !Cached(old(Snapshot()), d, n) && AllBusy(old(Snapshot()))
      ensures b != NONE ==> Hit(old(Snapshot()), Snapshot(), d, n, b) || Recycle(old(Snapshot()), Snapshot(), d, n, b)
    {
      b := Find(d, n);
      if b != HEAD {
        refcnt[b] := refcnt[b] + 1;
        return;
      }
      b := FindUnused();
      if b != HEAD {
        dev[b] := d;
        blockno[b] := n;
        valid[b] := false;
        refcnt[b] := 1;
        return;
      }
      b := NONE;
    }

    /** bread once the buffer's sleep-lock is held. */
    method Fill(b: int)
      requires Valid() && IsBuf(b) && (dev[b], blockno[b]) in disk
      modifies valid, data
      ensures Valid()
      ensures valid[..] == old(valid[..])[b := true]
      ensures data[..] == if old(valid[b]) then old(data[..]) else old(data[..])[b := disk[(dev[b], blockno[b])]]
    {
      if !valid[b] {
        data[b] := disk[(dev[b], blockno[b])];
        valid[b] := true;
      }
    }

    method Bwrite(b: int)
      requires Valid() && IsBuf(b)
      modifies this`disk
      ensures Valid() && disk == old(disk)[(dev[b], blockno[b]) := data[b]]
    {
      disk := disk[(dev[b], blockno[b]) := data[b]];
    }

    /** brelse under bcache.lock */
    method Brelse(b: int)
      requires Valid() && IsBuf(b)
      modifies refcnt, next, prev, this`order
      ensures Valid() && Put(old(Snapshot()), Snapshot(), b)
    {
      refcnt[b] := refcnt[b] - 1;
      if refcnt[b] == 0 {
        NoneLeftOut(order, b);
        ghost var k :| 0 <= k < |order| && order[k] == b;
        WithoutList(order, k);
        Unlink(b, k);
        Link(b);
      }
    }

    method Bpin(b: int)
      requires Valid() && IsBuf(b)
      modifies refcnt
      ensures Valid() && refcnt[..] == old(refcnt[..])[b := old(refcnt[b]) + 1]
    {
      refcnt[b] := refcnt[b] + 1;
    }

    method Bunpin(b: int)
      requires Valid() && IsBuf(b)
      modifies refcnt
      ensures Valid() && refcnt[..] == old(refcnt[..])[b := old(refcnt[b]) - 1]
    {
      refcnt[b] := refcnt[b] - 1;
    }
  }
}
