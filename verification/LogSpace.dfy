/** How many log blocks a set of operations may still add. */
module Reservation {
  import opened Params
  import opened Journal
  import opened Sets

  /** The log blocks the operations ps may still add. */
  ghost function Room(ops: map<int, set<int>>, ps: set<int>): (n: int)
    requires ps <= ops.Keys
  {
    if ps == {} then 0
    else
      NonEmpty(ps);
      var p :| p in ps;
      MAXOPBLOCKS - |ops[p]| + Room(ops, ps - {p})
  }

  ghost function Reserved(ops: map<int, set<int>>): (n: int) {
    Room(ops, ops.Keys)
  }

  lemma {:induction false} RoomSplit(ops: map<int, set<int>>, ps: set<int>, p: int)
    requires p in ps && ps <= ops.Keys
    ensures Room(ops, ps) == MAXOPBLOCKS - |ops[p]| + Room(ops, ps - {p})
  {
    var q :| q in ps && Room(ops, ps) == MAXOPBLOCKS - |ops[q]| + Room(ops, ps - {q});
    if q != p {
      RoomSplit(ops, ps - {q}, p);
      RoomSplit(ops, ps - {p}, q);
      assert ps - {q} - {p} == ps - {p} - {q};
    }
  }

  lemma {:induction false} RoomSame(ops: map<int, set<int>>, ops': map<int, set<int>>, ps: set<int>)
    requires ps <= ops.Keys && ps <= ops'.Keys
    requires forall p :: p in ps ==> ops[p] == ops'[p]
    ensures Room(ops, ps) == Room(ops', ps)
  {
    if ps != {} {
      NonEmpty(ps);
      var p :| p in ps;
      RoomSplit(ops, ps, p);
      RoomSplit(ops', ps, p);
      RoomSame(ops, ops', ps - {p});
    }
  }

  lemma {:induction false} RoomBounds(ops: map<int, set<int>>, ps: set<int>, least: nat)
    requires ps <= ops.Keys
    requires forall p :: p in ps ==> |ops[p]| <= MAXOPBLOCKS - least
    ensures 0 <= Room(ops, ps) <= MAXOPBLOCKS * |ps|
    ensures least > 0 && ps != {} ==> Room(ops, ps) > 0
  {
    if ps != {} {
      NonEmpty(ps);
      var p :| p in ps;
      RoomSplit(ops, ps, p);
      RoomBounds(ops, ps - {p}, least);
    }
  }

  lemma ReservedUpdate(ops: map<int, set<int>>, p: int, w: set<int>)
    requires p in ops
    ensures Reserved(ops[p := w]) == Reserved(ops) + |ops[p]| - |w|
  {
    RoomSplit(ops, ops.Keys, p);
    RoomSplit(ops[p := w], ops.Keys, p);
    RoomSame(ops, ops[p := w], ops.Keys - {p});
    assert ops[p := w].Keys == ops.Keys;
  }

  lemma ReservedAdd(ops: map<int, set<int>>, p: int)
    requires p !in ops
    ensures Reserved(ops[p := {}]) == Reserved(ops) + MAXOPBLOCKS
  {
    var ops' := ops[p := {}];
    assert ops'.Keys - {p} == ops.Keys;
    RoomSplit(ops', ops'.Keys, p);
    RoomSame(ops, ops', ops.Keys);
  }

  lemma ReservedRemove(ops: map<int, set<int>>, p: int)
    requires p in ops
    ensures Reserved(ops - {p}) == Reserved(ops) - MAXOPBLOCKS + |ops[p]|
  {
    RoomSplit(ops, ops.Keys, p);
    RoomSame(ops, ops - {p}, ops.Keys - {p});
    assert (ops - {p}).Keys == ops.Keys - {p};
  }
}

/** begin_op's reservation: when log_write's "too big a transaction" panic can
    and cannot be reached. */
module LogSpace {
  import opened Params
  import opened LogCalls
  import opened Journal
  import opened Log
  import opened GroupCommit
  import opened Reservation

  ghost predicate Space(s: Sys, bound: nat) {
    && |s.lh| + Reserved(s.ops) <= LOGBLOCKS
    && (forall p :: p in s.ops ==> |s.ops[p]| <= bound && s.ops[p] <= Blocks(s.lh))
    && (s.panicked ==> |s.lh| == LOGBLOCKS && s.ops != map[])
  }

  lemma SpaceBegin(s: Sys, t: Sys, p: int, bound: nat)
    requires Space(s, bound) && Begin(s, t, p) && bound <= MAXOPBLOCKS
    ensures Space(t, bound)
  {
    RoomBounds(s.ops, s.ops.Keys, 0);
    ReservedAdd(s.ops, p);
  }

  lemma SpaceWrite(s: Sys, t: Sys, p: int, b: int, v: Block, start: int, bound: nat)
    requires Space(s, bound) && LogStep(s, t, p, b, v, start, bound) && bound <= MAXOPBLOCKS
    ensures Space(t, bound)
  {
    RoomBounds(s.ops, s.ops.Keys, 0);
    if |s.lh| < LOGBLOCKS {
      ReservedUpdate(s.ops, p, s.ops[p] + {b});
      assert Blocks(t.lh) == Blocks(s.lh) + {b};
      if b in s.ops[p] {
        assert s.ops[p] + {b} == s.ops[p];
      }
    }
  }

  lemma SpaceEnd(s: Sys, t: Sys, p: int, bound: nat)
    requires Space(s, bound) && End(s, t, p) && !t.panicked && bound <= MAXOPBLOCKS
    ensures Space(t, bound)
  {
    ReservedRemove(s.ops, p);
  }

  lemma SpaceStep(s: Sys, t: Sys, start: int, bound: nat)
    requires Inv(s, start) && Space(s, bound) && Next(s, t, start, bound) && bound <= MAXOPBLOCKS
    ensures Space(t, bound)
  {
    if p :| Begin(s, t, p) {
      SpaceBegin(s, t, p, bound);
    } else if p, b, v :| LogStep(s, t, p, b, v, start, bound) {
      SpaceWrite(s, t, p, b, v, start, bound);
    } else if p :| End(s, t, p) {
      InvEnd(s, t, p, start);
      SpaceEnd(s, t, p, bound);
    }
  }

  lemma {:induction false} SpaceRun(r: seq<Sys>, start: int, bound: nat)
    requires Run(r, start, bound) && bound <= MAXOPBLOCKS
    ensures Space(r[|r| - 1], bound)
    decreases |r|
  {
    if |r| > 1 {
      RunPrefix(r, start, bound);
      SpaceRun(r[..|r| - 1], start, bound);
      NoPartialOperation(r[..|r| - 1], start, bound);
      SpaceStep(r[|r| - 2], r[|r| - 1], start, bound);
    }
  }

  /** With at most MAXOPBLOCKS - 1 distinct blocks per operation no run panics. */
  lemma NoPanicBelowBound(r: seq<Sys>, start: int, bound: nat)
    requires Run(r, start, bound) && bound < MAXOPBLOCKS
    ensures !r[|r| - 1].panicked
  {
    SpaceRun(r, start, bound);
    RoomBounds(r[|r| - 1].ops, r[|r| - 1].ops.Keys, 1);
  }

  /** When log_write panics: exactly on a full log.  At MAXOPBLOCKS that only
      ever happens to an operation that has all its MAXOPBLOCKS blocks in the log
      and logs one of them again, because the length test comes before the
      absorption loop. */
  lemma OnlyAbsorbedBlocksPanic(r: seq<Sys>, start: int, t: Sys, p: int, b: int, v: Block)
    requires Run(r, start, MAXOPBLOCKS) && LogStep(r[|r| - 1], t, p, b, v, start, MAXOPBLOCKS)
    ensures t.panicked <==> |r[|r| - 1].lh| == LOGBLOCKS
    ensures t.panicked ==> |r[|r| - 1].ops[p]| == MAXOPBLOCKS && b in r[|r| - 1].ops[p] && b in r[|r| - 1].lh
  {
    var s := r[|r| - 1];
    var mine := s.ops[p];
    assert b !in mine ==> |mine + {b}| == |mine| + 1;
    SpaceRun(r, start, MAXOPBLOCKS);
    RoomBounds(s.ops, s.ops.Keys, 0);
    RoomBounds(s.ops, s.ops.Keys - {p}, 0);
    RoomSplit(s.ops, s.ops.Keys, p);
  }

  // ---- operations that log nothing after their last new block

  /** Operation p makes the calls scripts[p], in order; b is the next of them. */
  ghost predicate Follows(s: Sys, p: int, b: int, scripts: map<int, seq<int>>) {
    && p in s.ops && p in scripts
    && exists k :: 0 <= k < |scripts[p]| && s.ops[p] == Called(scripts[p][..k]) && b == scripts[p][k]
  }

  ghost predicate NextBy(s: Sys, t: Sys, start: int, scripts: map<int, seq<int>>) {
    || (exists p :: Begin(s, t, p))
    || (exists p, b, v :: LogStep(s, t, p, b, v, start, MAXOPBLOCKS) && Follows(s, p, b, scripts))
    || (exists p :: End(s, t, p))
    || CommitStep(s, t, start)
    || RecoverStep(s, t, start)
    || Crash(s, t)
  }

  /** A run of operations with these scripts, interleaved and interrupted in any way. */
  ghost predicate RunBy(r: seq<Sys>, start: int, scripts: map<int, seq<int>>) {
    && r != [] && Init(r[0], start)
    && forall i :: 0 <= i < |r| - 1 ==> NextBy(r[i], r[i + 1], start, scripts)
  }

  lemma RunByIsRun(r: seq<Sys>, start: int, scripts: map<int, seq<int>>)
    requires RunBy(r, start, scripts)
    ensures Run(r, start, MAXOPBLOCKS)
  {
    forall i | 0 <= i < |r| - 1 ensures Next(r[i], r[i + 1], start, MAXOPBLOCKS) {
      assert NextBy(r[i], r[i + 1], start, scripts);
    }
  }

  /** Operations whose every log_write finds fewer than MAXOPBLOCKS blocks of
      their own never reach the panic, in any number and any interleaving. */
  lemma {:induction false} OrderlyNeverPanic(r: seq<Sys>, start: int, scripts: map<int, seq<int>>)
    requires RunBy(r, start, scripts) && forall p :: p in scripts ==> Orderly(scripts[p])
    ensures !r[|r| - 1].panicked
    decreases |r|
  {
    var n := |r| - 1;
    if n > 0 {
      var q := r[..n];
      RunByPrefix(r, start, scripts);
      OrderlyNeverPanic(q, start, scripts);
      RunByIsRun(q, start, scripts);
      OrderlyStep(q, r[n], start, scripts);
    }
  }

  lemma RunByPrefix(r: seq<Sys>, start: int, scripts: map<int, seq<int>>)
    requires RunBy(r, start, scripts) && |r| > 1
    ensures RunBy(r[..|r| - 1], start, scripts) && NextBy(r[|r| - 2], r[|r| - 1], start, scripts)
  {
    var q := r[..|r| - 1];
    forall i | 0 <= i < |q| - 1 ensures NextBy(q[i], q[i + 1], start, scripts) {
      assert NextBy(r[i], r[i + 1], start, scripts);
    }
    assert NextBy(r[|r| - 2], r[|r| - 2 + 1], start, scripts);
  }

  lemma OrderlyStep(q: seq<Sys>, t: Sys, start: int, scripts: map<int, seq<int>>)
    requires Run(q, start, MAXOPBLOCKS) && !q[|q| - 1].panicked && NextBy(q[|q| - 1], t, start, scripts)
    requires forall p :: p in scripts ==> Orderly(scripts[p])
    ensures !t.panicked
  {
    var s := q[|q| - 1];
    if p, b, v :| LogStep(s, t, p, b, v, start, MAXOPBLOCKS) && Follows(s, p, b, scripts) {
      OnlyAbsorbedBlocksPanic(q, start, t, p, b, v);
    } else if p :| End(s, t, p) {
      EndOpNeverPanics(q, start, MAXOPBLOCKS, t, p);
    }
  }

  // ---- a run that panics at MAXOPBLOCKS

  const START := 2
  const FIRST := 100

  function Copies<T>(x: T, n: nat): (s: seq<T>)
    ensures |s| == n && forall i :: 0 <= i < n ==> s[i] == x
  {
    if n == 0 then [] else Copies(x, n - 1) + [x]
  }

  function Zero(): (b: Block)
    ensures |b| == BLOCK_WORDS && b[0] == 0
  {
    Copies(0, BLOCK_WORDS)
  }

  function EmptyDisk(): (d: Disk)
    ensures |d| == 200 && forall i :: 0 <= i < 200 ==> d[i] == Zero()
  {
    Copies(Zero(), 200)
  }

  lemma Extend(q: seq<Sys>, t: Sys) returns (r: seq<Sys>)
    requires Run(q, START, MAXOPBLOCKS) && Next(q[|q| - 1], t, START, MAXOPBLOCKS)
    ensures Run(r, START, MAXOPBLOCKS) && r[|r| - 1] == t
  {
    r := q + [t];
    forall i | 0 <= i < |r| - 1 ensures Next(r[i], r[i + 1], START, MAXOPBLOCKS) {
      if i < |q| - 1 {
        assert Next(q[i], q[i + 1], START, MAXOPBLOCKS);
      }
    }
  }

  lemma Opening() returns (r: seq<Sys>)
    ensures Run(r, START, MAXOPBLOCKS)
    ensures r[|r| - 1] == Sys(EmptyDisk(), Running, [], map[], map[0 := {}, 1 := {}, 2 := {}], false)
  {
    var s0 := Sys(EmptyDisk(), Running, [], map[], map[], false);
    var s1, s2 := s0.(ops := map[0 := {}]), s0.(ops := map[0 := {}, 1 := {}]);
    var s3 := s0.(ops := map[0 := {}, 1 := {}, 2 := {}]);
    assert |s1.ops| == 1 && |s2.ops| == 2;
    assert Begin(s0, s1, 0) && Begin(s1, s2, 1) && Begin(s2, s3, 2);
    r := [s0, s1, s2, s3];
  }

  function Share(m: int): (n: nat) {
    if m < 0 then 0 else if m < MAXOPBLOCKS then m else MAXOPBLOCKS
  }

  /** Three operations are outstanding, blocks FIRST .. FIRST + m - 1 are logged,
      and each operation is within its share of them. */
  ghost predicate Filled(s: Sys, m: int) {
    && |s.disk| == 200 && s.phase.Running? && !s.panicked
    && |s.lh| == m && (forall i :: 0 <= i < m ==> s.lh[i] < FIRST + m)
    && s.ops.Keys == {0, 1, 2}
    && |s.ops[0]| <= Share(m) && |s.ops[1]| <= Share(m - 10) && |s.ops[2]| <= Share(m - 20)
    && (m > 0 ==> FIRST in s.ops[0])
  }

  lemma FillOne(s: Sys, m: int) returns (t: Sys)
    requires 0 <= m < LOGBLOCKS && Filled(s, m)
    ensures Filled(t, m + 1) && Next(s, t, START, MAXOPBLOCKS)
  {
    var p, b := m / 10, FIRST + m;
    t := s.(lh := Absorb(s.lh, b), cache := s.cache[b := Zero()], ops := s.ops[p := s.ops[p] + {b}]);
    assert LogStep(s, t, p, b, Zero(), START, MAXOPBLOCKS);
  }

  lemma {:induction false} Filling(m: int) returns (r: seq<Sys>)
    requires 0 <= m <= LOGBLOCKS
    ensures Run(r, START, MAXOPBLOCKS) && Filled(r[|r| - 1], m)
    decreases m
  {
    if m == 0 {
      r := Opening();
    } else {
      var q := Filling(m - 1);
      var t := FillOne(q[|q| - 1], m - 1);
      r := Extend(q, t);
    }
  }

  /** Three operations log ten blocks each, then one logs a block again. */
  lemma PanicRun() returns (r: seq<Sys>)
    ensures Run(r, START, MAXOPBLOCKS) && r[|r| - 1].panicked
  {
    var q := Filling(LOGBLOCKS);
    var s := q[|q| - 1];
    var t := s.(panicked := true);
    assert s.ops[0] + {FIRST} == s.ops[0];
    assert LogStep(s, t, 0, FIRST, Zero(), START, MAXOPBLOCKS);
    r := Extend(q, t);
  }

  /** What operations may do with a lower bound, they may do with a higher one. */
  lemma HigherBound(r: seq<Sys>, start: int, bound: nat, higher: nat)
    requires Run(r, start, bound) && bound <= higher
    ensures Run(r, start, higher)
  {
    forall i | 0 <= i < |r| - 1 ensures Next(r[i], r[i + 1], start, higher) {
      HigherNext(r[i], r[i + 1], start, bound, higher);
    }
  }

  lemma HigherNext(s: Sys, t: Sys, start: int, bound: nat, higher: nat)
    requires Next(s, t, start, bound) && bound <= higher
    ensures Next(s, t, start, higher)
  {
    if p, b, v :| LogStep(s, t, p, b, v, start, bound) {
      assert LogStep(s, t, p, b, v, start, higher);
    }
  }

  /** The panic "too big a transaction" is reachable exactly when operations may
      log MAXOPBLOCKS or more distinct blocks; one block less and no run reaches it. */
  lemma TooBigATransaction(bound: nat)
    ensures (exists r: seq<Sys>, start: int :: Run(r, start, bound) && r[|r| - 1].panicked) <==> bound >= MAXOPBLOCKS
  {
    if bound >= MAXOPBLOCKS {
      var r := PanicRun();
      HigherBound(r, START, MAXOPBLOCKS, bound);
      assert Run(r, START, bound) && r[|r| - 1].panicked;
    } else {
      forall r: seq<Sys>, start: int | Run(r, start, bound) ensures !r[|r| - 1].panicked {
        NoPanicBelowBound(r, start, bound);
      }
    }
  }
}
