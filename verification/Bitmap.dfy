/** The free map of kernel/fs.c: one bit per block, eight to a byte. */
module Bitmap {
  const BPB := 8192   // BSIZE * 8

  /** 1 << k */
  function Mask(k: int): (m: bv8) {
    if k == 0 then 1 else if k == 1 then 2 else if k == 2 then 4 else if k == 3 then 8
    else if k == 4 then 16 else if k == 5 then 32 else if k == 6 then 64 else 128
  }

  predicate Bit(x: bv8, k: int) {
    x & Mask(k) != 0
  }

  lemma SetBit(x: bv8, k: int, l: int)
    requires 0 <= k < 8 && 0 <= l < 8
    ensures Bit(x | Mask(k), l) <==> l == k || Bit(x, l)
  {}

  lemma ClearBit(x: bv8, k: int, l: int)
    requires 0 <= k < 8 && 0 <= l < 8
    ensures Bit(x & !Mask(k), l) <==> l != k && Bit(x, l)
  {}

  /** The marks of the blocks 0 .. n - 1. */
  function Marks(bits: seq<bv8>, n: nat): (s: seq<bool>)
    requires n <= 8 * |bits|
    ensures |s| == n && forall b {:trigger s[b]} :: 0 <= b < n ==> s[b] == Bit(bits[b / 8], b % 8)
  {
    if n == 0 then [] else Marks(bits, n - 1) + [Bit(bits[(n - 1) / 8], (n - 1) % 8)]
  }

  lemma SetBitAt(bits: seq<bv8>, b: nat, c: nat)
    requires b < 8 * |bits| && c < 8 * |bits|
    ensures Bit(bits[b / 8 := bits[b / 8] | Mask(b % 8)][c / 8], c % 8) <==> c == b || Bit(bits[c / 8], c % 8)
  {
    if c / 8 == b / 8 {
      SetBit(bits[b / 8], b % 8, c % 8);
      assert c == b <==> c % 8 == b % 8;
    }
  }

  lemma ClearBitAt(bits: seq<bv8>, b: nat, c: nat)
    requires b < 8 * |bits| && c < 8 * |bits|
    ensures Bit(bits[b / 8 := bits[b / 8] & !Mask(b % 8)][c / 8], c % 8) <==> c != b && Bit(bits[c / 8], c % 8)
  {
    if c / 8 == b / 8 {
      ClearBit(bits[b / 8], b % 8, c % 8);
      assert c == b <==> c % 8 == b % 8;
    }
  }

  lemma {:induction false} MarkSet(bits: seq<bv8>, n: nat, b: nat)
    requires n <= 8 * |bits| && b < n
    ensures Marks(bits[b / 8 := bits[b / 8] | Mask(b % 8)], n) == Marks(bits, n)[b := true]
  {
    var s, t := Marks(bits[b / 8 := bits[b / 8] | Mask(b % 8)], n), Marks(bits, n);
    forall c | 0 <= c < n ensures s[c] == t[b := true][c] {
      SetBitAt(bits, b, c);
    }
  }

  lemma {:induction false} MarkClear(bits: seq<bv8>, n: nat, b: nat)
    requires n <= 8 * |bits| && b < n
    ensures Marks(bits[b / 8 := bits[b / 8] & !Mask(b % 8)], n) == Marks(bits, n)[b := false]
  {
    var s, t := Marks(bits[b / 8 := bits[b / 8] & !Mask(b % 8)], n), Marks(bits, n);
    forall c | 0 <= c < n ensures s[c] == t[b := false][c] {
      ClearBitAt(bits, b, c);
    }
  }

  /** Bit bi of bitmap block b / BPB is bit b % 8 of byte b / 8 of the map. */
  lemma ByteIndex(b: nat)
    ensures b / BPB * 1024 + b % BPB / 8 == b / 8 && b % BPB % 8 == b % 8
  {
    assert b == b / BPB * 1024 * 8 + b % BPB;
  }
}
