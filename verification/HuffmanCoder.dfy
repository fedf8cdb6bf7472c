/** The Huffman encoder of HPACK as imperative code, packing codes into bytes. The code
    table is a parameter. */
module HuffmanCoder {
  import opened Basics
  import opened Bits
  import opened HuffmanCode
  import opened HuffmanPacking

  /** `huffman_string_size` */
  method HuffmanStringSize(t: Table, value: seq<Byte>) returns (size: nat)
    ensures size == EncodedSize(t, value)
  {
    size := 7;
    for i := 0 to |value|
      invariant size == 7 + |Encoded(t, value[..i])|
    {
      assert value[..i + 1][..i] == value[..i];
      size := size + t[value[i]].codeLen;
    }
    assert value[..|value|] == value;
    size := size / 8;
  }

  const MASK: seq<Byte> := [0xff, 0x7f, 0x3f, 0x1f, 0x0f, 0x07, 0x03, 0x01]

  lemma MaskIsOnes(used: nat)
    requires used < 8
    ensures MASK[used] == Pow2(8 - used) - 1
  {
    Pow2Byte();
    assert Pow2(8) == 2 * Pow2(7) == 4 * Pow2(6) == 8 * Pow2(5) == 16 * Pow2(4);
    assert Pow2(4) == 2 * Pow2(3) == 4 * Pow2(2) == 8 * Pow2(1);
  }

  /** `bits` have been stored from `start` on: whole bytes up to `at`, and `used` bits,
      as the number `top`, in the byte at `at`. */
  ghost predicate Holds(a: array<Byte>, start: nat, at: nat, used: nat, top: nat, bits: BitString)
    reads a
  {
    && start <= at < a.Length && used < 8
    && Partial(a[at], top, used, 8 - used)
    && AllBits(a[start..at]) + BitsOf(top, used) == bits
  }

  twostate predicate OnlyBetween(a: array<Byte>, from: nat, to: nat)
    reads a
  {
    forall k :: 0 <= k < a.Length && !(from <= k <= to) ==> a[k] == old(a[k])
  }

  /** The byte at `at` is complete: clear the next one. */
  method NextByte(a: array<Byte>, start: nat, at: nat, ghost before: BitString)
    requires start <= at && at + 1 < a.Length && AllBits(a[start..at]) == before
    modifies a
    ensures Holds(a, start, at + 1, 0, 0, before + BitsOf(a[at], 8)) && OnlyBetween(a, at + 1, at + 1)
  {
    a[at + 1] := 0;
    assert a[start..at + 1][..at - start] == a[start..at];
    assert BitsOf(0, 0) == [];
  }

  /** The else branch: the byte is filled, `rest` bits of the code are left over. */
  method StoreFirstBits(a: array<Byte>, start: nat, at: nat, used: nat, ghost top: nat, ghost bits: BitString,
                        code: nat, rest: nat)
    returns (ghost done: BitString)
    requires Holds(a, start, at, used, top, bits) && at + 1 < a.Length
    modifies a
    ensures Holds(a, start, at + 1, 0, 0, done) && OnlyBetween(a, at, at + 1)
    ensures done + BitsOf(code, rest) == bits + BitsOf(code, 8 - used + rest)
  {
    ghost var before := AllBits(a[start..at]);
    StoreFirst(a[at], top, code, used, 8 - used, rest);
    a[at] := a[at] + FirstPiece(code, 8 - used, rest);
    done := before + BitsOf(a[at], 8);
    Associate(before, BitsOf(a[at], 8), BitsOf(code, rest));
    Associate(before, BitsOf(top, used), BitsOf(code, 8 - used + rest));
    NextByte(a, start, at, before);
  }

  /** The then branch: the rest of the code fits. */
  method StoreLastBits(a: array<Byte>, start: nat, at: nat, used: nat, ghost top: nat, ghost bits: BitString,
                       code: nat, len: nat)
    returns (at': nat, used': nat, ghost top': nat)
    requires Holds(a, start, at, used, top, bits) && used + len <= 8 && (used + len == 8 ==> at + 1 < a.Length)
    modifies a
    ensures Holds(a, start, at', used', top', bits + BitsOf(code, len))
    ensures at <= at' && OnlyBetween(a, at, at')
  {
    ghost var before := AllBits(a[start..at]);
    top' := StoreLast(a[at], top, code, used, len, 8 - used - len);
    Associate(before, BitsOf(top, used), BitsOf(code, len));
    ghost var now := a[at] + LastPiece(code, len, 8 - used - len);
    PartialIsByte(now, top', used + len);
    a[at] := a[at] + LastPiece(code, len, 8 - used - len);
    at', used' := at, used + len;
    if used' == 8 {
      FullByte(a[at], top');
      NextByte(a, start, at, before);
      used', top' := 0, 0;
      at' := at + 1;
    }
  }

  lemma PartialIsByte(current: nat, top: nat, used: nat)
    requires used <= 8 && Partial(current, top, used, 8 - used)
    ensures current < 256
  {
    ShlBelow(top, 0, used, 8 - used);
    Pow2Byte();
  }

  /** The inner loop: one code is appended to the bits stored so far. */
  method StoreCode(a: array<Byte>, start: nat, at0: nat, used0: nat, ghost top0: nat, ghost bits: BitString,
                   entry: Entry)
    returns (at: nat, used: nat, ghost top: nat)
    requires Holds(a, start, at0, used0, top0, bits)
    requires start + (|bits| + entry.codeLen) / 8 < a.Length
    modifies a
    ensures Holds(a, start, at, used, top, bits + BitsOf(entry.code, entry.codeLen))
    ensures at0 <= at && OnlyBetween(a, at0, at)
  {
    var len: nat := entry.codeLen;
    ghost var done := bits;
    at, used, top := at0, used0, top0;
    while used + len > 8
      invariant Holds(a, start, at, used, top, done)
      invariant done + BitsOf(entry.code, len) == bits + BitsOf(entry.code, entry.codeLen)
      invariant at0 <= at && OnlyBetween(a, at0, at)
      invariant len <= entry.codeLen
    {
      assert |done| + len == |bits| + entry.codeLen;
      done := StoreFirstBits(a, start, at, used, top, done, entry.code, used + len - 8);
      len := len - (8 - used);
      at, used, top := at + 1, 0, 0;
    }
    assert |done| + len == |bits| + entry.codeLen;
    at, used, top := StoreLastBits(a, start, at, used, top, done, entry.code, len);
  }

  lemma EncodedGrows(t: Table, value: seq<Byte>, i: nat)
    requires i <= |value|
    ensures |Encoded(t, value[..i])| <= |Encoded(t, value)|
    decreases |value| - i
  {
    if i == |value| {
      assert value[..i] == value;
    } else {
      assert value[..i + 1][..i] == value[..i];
      EncodedGrows(t, value, i + 1);
    }
  }

  /** The closing mask of one bits. */
  method Pad(a: array<Byte>, start: nat, at: nat, used: nat, ghost top: nat, ghost bits: BitString) returns (end: nat)
    requires Holds(a, start, at, used, top, bits)
    modifies a
    ensures at <= end <= at + 1 && end - start == (7 + |bits|) / 8 && OnlyBetween(a, at, at)
    ensures AllBits(a[start..end]) == bits + Ones(8 * (end - start) - |bits|)
  {
    end := at;
    if used != 0 {
      StorePadding(a[at], top, used, 8 - used);
      MaskIsOnes(used);
      a[at] := a[at] + MASK[used];
      end := at + 1;
      assert a[start..end][..at - start] == a[start..at];
      Associate(AllBits(a[start..at]), BitsOf(top, used), Ones(8 - used));
    }
  }

  /** `add_huffman_string`: the bytes written are a packing of the string, and no byte
      outside them and the one after them is touched. */
  method AddHuffmanString(t: Table, a: array<Byte>, start: nat, value: seq<Byte>) returns (end: nat)
    requires start + |Encoded(t, value)| / 8 < a.Length
    modifies a
    ensures start <= end <= a.Length && Packs(t, a[start..end], value)
    ensures OnlyBetween(a, start, end)
  {
    a[start] := 0;
    assert a[start..start] == [] && BitsOf(0, 0) == [];
    var at: nat, used: nat := start, 0;
    ghost var top: nat := 0;
    for i := 0 to |value|
      invariant Holds(a, start, at, used, top, Encoded(t, value[..i]))
      invariant OnlyBetween(a, start, at)
    {
      assert value[..i + 1][..i] == value[..i];
      EncodedGrows(t, value, i + 1);
      at, used, top := StoreCode(a, start, at, used, top, Encoded(t, value[..i]), t[value[i]]);
    }
    assert value[..|value|] == value;
    end := Pad(a, start, at, used, top, Encoded(t, value));
  }
}
