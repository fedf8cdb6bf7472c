/** The arithmetic of `add_huffman_string`: how shifts, masks and additions move the
    bits of a code into the byte under construction. */
module HuffmanPacking {
  import opened Basics
  import opened Bits

  lemma {:induction false} MaskTwice(x: nat, n: nat, k: nat)
    requires k <= n
    ensures Low(Low(x, n), k) == Low(x, k)
  {
    if k == 0 {
    } else {
      MaskTwice(x / 2, n - 1, k - 1);
    }
  }

  lemma {:induction false} MaskShifted(x: nat, len: nat, k: nat)
    ensures Low(Shl(x, k), len + k) == Shl(Low(x, len), k)
  {
    if k == 0 {
    } else {
      MaskShifted(x, len, k - 1);
    }
  }

  lemma {:induction false} ShlSum(a: nat, b: nat, m: nat, k: nat)
    ensures Shl(Shl(a, m) + b, k) == Shl(a, m + k) + Shl(b, k)
  {
    if k == 0 {
    } else {
      ShlSum(a, b, m, k - 1);
    }
  }

  lemma {:induction false} ShlBelow(c: nat, lo: nat, i: nat, j: nat)
    requires c < Pow2(i) && lo < Pow2(j)
    ensures Shl(c, j) + lo < Pow2(i + j)
  {
    if j == 0 {
    } else {
      ShlBelow(c, lo / 2, i, j - 1);
    }
  }

  /** A byte under construction: its `used` top bits hold `top`, the others are 0. */
  predicate Partial(current: nat, top: nat, used: nat, free: nat) {
    used + free == 8 && current == Shl(top, free) && top < Pow2(used)
  }

  /** `(code << (8 - bit_index - len_left)) & mask[bit_index]` in 32-bit arithmetic,
      where `free` bits stay free. */
  function LastPiece(code: nat, len: nat, free: nat): nat {
    Low(Low(Shl(code, free), 32), len + free)
  }

  /** `(code >> (len_left + bit_index - 8)) & mask[bit_index]`, where `rest` bits are
      left over. */
  function FirstPiece(code: nat, free: nat, rest: nat): nat {
    Low(Shr(code, rest), free)
  }

  lemma FullByte(current: nat, top: nat)
    requires Partial(current, top, 8, 0)
    ensures current == top < 256
  {
    Pow2Byte();
  }

  lemma LastPieceIs(code: nat, len: nat, free: nat)
    requires len + free <= 8
    ensures LastPiece(code, len, free) == Shl(Low(code, len), free)
  {
    MaskTwice(Shl(code, free), 32, len + free);
    MaskShifted(code, len, free);
  }

  /** Storing the rest of a code that fits the byte. */
  lemma StoreLast(current: nat, top: nat, code: nat, used: nat, len: nat, free: nat) returns (next: nat)
    requires Partial(current, top, used, len + free)
    ensures Partial(current + LastPiece(code, len, free), next, used + len, free)
    ensures BitsOf(next, used + len) == BitsOf(top, used) + BitsOf(code, len)
  {
    LastPieceIs(code, len, free);
    var low := Low(code, len);
    next := Shl(top, len) + low;
    ShlSum(top, low, len, free);
    ShiftAndMask(code, len);
    ShlBelow(top, low, used, len);
    BitsConcat(top, low, used, len);
    MaskBits(code, len);
  }

  /** Filling the byte with the first bits of what is left of a code. */
  lemma StoreFirst(current: nat, top: nat, code: nat, used: nat, free: nat, rest: nat)
    requires Partial(current, top, used, free)
    ensures current + FirstPiece(code, free, rest) < 256
    ensures BitsOf(current + FirstPiece(code, free, rest), 8) + BitsOf(code, rest)
         == BitsOf(top, used) + BitsOf(code, free + rest)
  {
    var piece := FirstPiece(code, free, rest);
    ShiftAndMask(Shr(code, rest), free);
    ShlBelow(top, piece, used, free);
    Pow2Byte();
    BitsConcat(top, piece, used, free);
    MaskBits(Shr(code, rest), free);
    CutBits(code, free, rest);
  }

  /** The closing `*pstart += mask[bit_index]`. */
  lemma StorePadding(current: nat, top: nat, used: nat, free: nat)
    requires Partial(current, top, used, free)
    ensures current + (Pow2(free) - 1) < 256
    ensures BitsOf(current + (Pow2(free) - 1), 8) == BitsOf(top, used) + Ones(free)
  {
    ShlBelow(top, Pow2(free) - 1, used, free);
    Pow2Byte();
    BitsConcat(top, Pow2(free) - 1, used, free);
    OnesOf(free);
  }
}
