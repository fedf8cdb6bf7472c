/** Bit strings, most significant bit first, and their packing into bytes. */
module Bits {
  import opened Basics

  type BitString = seq<bool>

  /** The `len` low bits of `n`. */
  function BitsOf(n: nat, len: nat): (bits: BitString)
    ensures |bits| == len
  {
    if len == 0 then [] else BitsOf(n / 2, len - 1) + [n % 2 == 1]
  }

  function Ones(len: nat): (bits: BitString)
    ensures |bits| == len
  {
    seq(len, _ => true)
  }

  function AllBits(bytes: seq<Byte>): (bits: BitString)
    ensures |bits| == 8 * |bytes|
  {
    if bytes == [] then [] else AllBits(bytes[..|bytes| - 1]) + BitsOf(bytes[|bytes| - 1], 8)
  }

  /** `x << k`, before any truncation. */
  function Shl(x: nat, k: nat): nat {
    if k == 0 then x else 2 * Shl(x, k - 1)
  }

  /** `x >> k` */
  function Shr(x: nat, k: nat): nat {
    if k == 0 then x else Shr(x / 2, k - 1)
  }

  /** `x & mask` for the mask of `k` one bits; also the truncation of `x` to `k` bits. */
  function Low(x: nat, k: nat): nat {
    if k == 0 then 0 else 2 * Low(x / 2, k - 1) + x % 2
  }

  /** Shifting and masking take a number apart and put it together. */
  lemma {:induction false} ShiftAndMask(x: nat, k: nat)
    ensures Low(x, k) < Pow2(k)
    ensures x == Shl(Shr(x, k), k) + Low(x, k)
  {
    if k == 0 {
    } else {
      ShiftAndMask(x / 2, k - 1);
    }
  }

  lemma {:induction false} ShlIsProduct(x: nat, k: nat)
    ensures Shl(x, k) == x * Pow2(k)
  {
    if k == 0 {
    } else {
      ShlIsProduct(x, k - 1);
      var p := Pow2(k - 1);
      assert x * (2 * p) == 2 * (x * p);
    }
  }

  /** Putting `j` bits behind `i` bits. */
  lemma {:induction false} BitsConcat(hi: nat, lo: nat, i: nat, j: nat)
    requires lo < Pow2(j)
    ensures BitsOf(Shl(hi, j) + lo, i + j) == BitsOf(hi, i) + BitsOf(lo, j)
  {
    if j == 0 {
    } else {
      BitsConcat(hi, lo / 2, i, j - 1);
    }
  }

  /** Cutting bits off behind. */
  lemma {:induction false} CutBits(x: nat, i: nat, j: nat)
    ensures BitsOf(x, i + j) == BitsOf(Shr(x, j), i) + BitsOf(x, j)
  {
    if j == 0 {
    } else {
      CutBits(x / 2, i, j - 1);
    }
  }

  lemma {:induction false} MaskBits(x: nat, k: nat)
    ensures BitsOf(Low(x, k), k) == BitsOf(x, k)
  {
    if k == 0 {
    } else {
      MaskBits(x / 2, k - 1);
    }
  }

  lemma {:induction false} AllBitsConcat(a: seq<Byte>, b: seq<Byte>)
    ensures AllBits(a + b) == AllBits(a) + AllBits(b)
  {
    if b == [] {
      assert a + b == a;
    } else {
      var init, last := b[..|b| - 1], b[|b| - 1];
      AllBitsConcat(a, init);
      assert (a + b)[..|a + b| - 1] == a + init && (a + b)[|a + b| - 1] == last;
      Associate(AllBits(a), AllBits(init), BitsOf(last, 8));
    }
  }

  /** Bit `i` as the loops of the source test it, with a single moving one bit. */
  lemma {:induction false} BitAt(n: nat, len: nat, i: nat)
    requires i < len
    ensures BitsOf(n, len)[i] <==> Shr(n, len - 1 - i) % 2 == 1
    decreases len
  {
    if i >= len - 1 {
    } else {
      BitAt(n / 2, len - 1, i);
    }
  }

  lemma {:induction false} OnesOf(len: nat)
    ensures BitsOf(Pow2(len) - 1, len) == Ones(len)
  {
    if len == 0 {
    } else {
      OnesOf(len - 1);
      assert (Pow2(len) - 1) / 2 == Pow2(len - 1) - 1;
    }
  }

  /** The bits of a number, most significant first. */
  lemma BitsAre(n: nat, bits: BitString)
    requires forall i :: 0 <= i < |bits| ==> (bits[i] <==> Shr(n, |bits| - 1 - i) % 2 == 1)
    ensures BitsOf(n, |bits|) == bits
  {
    forall i | 0 <= i < |bits| ensures BitsOf(n, |bits|)[i] == bits[i] {
      BitAt(n, |bits|, i);
    }
  }

  lemma Halves(n: nat)
    ensures Shr(n, 0) == n && Shr(n, 1) == n / 2 && Shr(n, 2) == n / 4 && Shr(n, 3) == n / 8
    ensures Shr(n, 4) == n / 16 && Shr(n, 5) == n / 32 && Shr(n, 6) == n / 64 && Shr(n, 7) == n / 128
  {
  }

  /** The first bit of a byte counts 128, and the last one 1. */
  lemma ByteBits(n: nat, bits: BitString)
    requires |bits| == 8
    requires (bits[0] <==> n / 128 % 2 == 1) && (bits[1] <==> n / 64 % 2 == 1)
    requires (bits[2] <==> n / 32 % 2 == 1) && (bits[3] <==> n / 16 % 2 == 1)
    requires (bits[4] <==> n / 8 % 2 == 1) && (bits[5] <==> n / 4 % 2 == 1)
    requires (bits[6] <==> n / 2 % 2 == 1) && (bits[7] <==> n % 2 == 1)
    ensures BitsOf(n, |bits|) == bits
  {
    Halves(n);
    BitsAre(n, bits);
  }
}
