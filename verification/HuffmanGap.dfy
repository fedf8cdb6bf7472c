/** Received bits on which the decoder with the shipped table leaves the code tree: the
    codes of some string, followed by the one code of 28 bits that the table lacks. */
module HuffmanGap {
  import opened Basics
  import opened Bits
  import opened HuffmanCode
  import opened HuffmanReverse
  import opened HuffmanTable

  // ----- every number in the range of its length, but the missing one, is a code -----

  predicate IsMissing(len: nat, code: nat) {
    len == 28 && code == MISSING
  }

  lemma IsReversed(len: nat, code: nat)
    requires 5 <= len <= 30 && First(len) <= code < Next(len) && !IsMissing(len, code)
    ensures SymbolOf(len, code) <= EOS && EntryOf(SymbolOf(len, code)) == Entry(code, len)
  {
    if len == 5 { Codes5(code); } else if len == 6 { Codes6(code); } else if len == 7 { Codes7(code); }
    else if len == 8 { Codes8(code); } else if len == 10 { Codes10(code); } else if len == 11 { Codes11(code); }
    else if len == 12 { Codes12(code); } else if len == 13 { Codes13(code); } else if len == 14 { Codes14(code); }
    else if len == 15 { Codes15(code); } else if len == 19 { Codes19(code); } else if len == 20 { Codes20(code); }
    else if len == 21 { Codes21(code); } else if len == 22 { Codes22(code); } else if len == 23 { Codes23(code); }
    else if len == 24 { Codes24(code); } else if len == 25 { Codes25(code); } else if len == 26 { Codes26(code); }
    else if len == 27 { Codes27(code); } else if len == 28 { Codes28(code); } else { Codes30(code); }
  }

  ghost predicate HasCode(t: Table, len: nat, code: nat) {
    exists s :: 0 <= s <= EOS && Code(t, s) == BitsOf(code, len)
  }

  /** The code of `s` lies in the range of its length. */
  ghost predicate InRange(t: Table, s: nat)
    requires s <= EOS
  {
    var e := t[s];
    5 <= e.codeLen <= 30 && First(e.codeLen) <= e.code < Next(e.codeLen) && e.code < Pow2(e.codeLen)
    && !IsMissing(e.codeLen, e.code)
  }

  /** The codes are all numbers in the ranges of their lengths but the missing one. */
  ghost predicate Complete(t: Table) {
    && (forall s :: 0 <= s <= EOS ==> InRange(t, s))
    && (forall len, code :: 5 <= len <= 30 && First(len) <= code < Next(len) && !IsMissing(len, code) ==> HasCode(t, len, code))
  }

  lemma IsCode(len: nat, code: nat)
    requires 5 <= len <= 30 && First(len) <= code < Next(len) && !IsMissing(len, code)
    ensures HasCode(SHIPPED, len, code)
  {
    var s := SymbolOf(len, code);
    IsReversed(len, code);
    assert Code(SHIPPED, s) == BitsOf(code, len);
  }

  lemma ShippedInRange(s: nat)
    requires s <= EOS
    ensures InRange(SHIPPED, s)
  {
    CodeFits(s);
    assert EntryOf(249) == Entry(0xffffffe, 28);
  }

  lemma ShippedComplete()
    ensures Complete(SHIPPED)
  {
    forall s | 0 <= s <= EOS ensures InRange(SHIPPED, s) {
      ShippedInRange(s);
    }
    forall len, code | 5 <= len <= 30 && First(len) <= code < Next(len) && !IsMissing(len, code)
      ensures HasCode(SHIPPED, len, code)
    {
      IsCode(len, code);
    }
  }

  /** Every bit string that no shorter code begins leads to a code, but the missing one. */
  lemma {:induction false} LeadsToCode(t: Table, len: nat, w: nat) returns (s: nat)
    requires Complete(t) && len <= 30 && First(len) <= w < Pow2(len) && !IsMissing(len, w)
    ensures s <= EOS && BitsOf(w, len) <= Code(t, s)
    decreases 30 - len
  {
    if len >= 5 && w < Next(len) {
      assert HasCode(t, len, w);
      s :| 0 <= s <= EOS && Code(t, s) == BitsOf(w, len);
    } else {
      var next := NextOnTheWay(len, w);
      s := LeadsToCode(t, len + 1, next);
      assert BitsOf(next, len + 1) == BitsOf(w, len) + [next % 2 == 1];
    }
  }

  /** One bit further, not to the missing code. */
  lemma NextOnTheWay(len: nat, w: nat) returns (next: nat)
    requires len <= 30 && First(len) <= w < Pow2(len) && (len >= 5 ==> w >= Next(len))
    ensures len < 30 && next / 2 == w && First(len + 1) <= next < Pow2(len + 1) && !IsMissing(len + 1, next)
  {
    if len == 30 { Pow2Of30(); }
    if 5 <= len < 30 { Adjacent(len); }
    next := if IsMissing(len + 1, 2 * w) then 2 * w + 1 else 2 * w;
  }

  // ----- where the walk stops -----

  /** The first bits of a code, as a number that is beyond the codes of their length. */
  lemma CodeStart(t: Table, s: nat, len: nat) returns (v: nat)
    requires Complete(t) && s <= EOS && len < |Code(t, s)|
    ensures len < 30 && Code(t, s)[..len] == BitsOf(v, len) && v < Pow2(len) && (len >= 5 ==> v >= Next(len))
  {
    assert InRange(t, s);
    var e := t[s];
    var more := e.codeLen - len;
    CutBits(e.code, len, more);
    v := Shr(e.code, more);
    ShrFits(e.code, len, more);
    if len >= 5 {
      LaterCodes(len, more);
      ShrOrder(e.code, Next(len), more);
    }
  }

  /** A node inside the tree is the start of a code. */
  lemma InnerNode(t: Table, path: BitString) returns (s: nat)
    requires IsNode(t, path) && !IsLeaf(t, path)
    ensures s <= EOS && |path| < |Code(t, s)| && Code(t, s)[..|path|] == path
  {
    var next := if IsNode(t, path + [false]) then path + [false] else path + [true];
    s :| 0 <= s <= EOS && next <= Code(t, s);
    assert path == next[..|path|] == Code(t, s)[..|path|];
  }

  /** From a node inside the tree every bit leads to a node, but where the code is missing. */
  lemma BitLeads(t: Table, path: BitString, b: bool)
    requires Complete(t) && IsNode(t, path) && !IsLeaf(t, path)
    ensures IsNode(t, path + [b]) || path + [b] == BitsOf(MISSING, 28)
  {
    var start := InnerNode(t, path);
    var v := CodeStart(t, start, |path|);
    var len, w := |path|, 2 * v + if b then 1 else 0;
    assert w / 2 == v && (w % 2 == 1) == b;
    assert BitsOf(w, len + 1) == path + [b];
    if len >= 5 { Adjacent(len); }
    if !IsMissing(len + 1, w) {
      var s := LeadsToCode(t, len + 1, w);
    }
  }

  lemma NoNodeAtMissing(t: Table)
    requires Complete(t)
    ensures !IsNode(t, BitsOf(MISSING, 28))
  {
    forall s | 0 <= s <= EOS ensures !(BitsOf(MISSING, 28) <= Code(t, s)) {
      var e := t[s];
      assert InRange(t, s);
      MissingFits();
      if BitsOf(MISSING, 28) <= Code(t, s) {
        var more := e.codeLen - 28;
        SamePrefix(Entry(MISSING, 28), e, more);
        if more > 0 {
          NotLonger(Entry(MISSING, 28), e, more);
        }
      }
    }
  }

  lemma MissingFits()
    ensures MISSING < Pow2(28)
  {
    Pow2Of30();
    assert Pow2(30) == 2 * Pow2(29) == 4 * Pow2(28);
  }

  lemma Siblings(x: nat, n: nat)
    ensures BitsOf(2 * x, n + 1)[..n] == BitsOf(2 * x + 1, n + 1)[..n]
  {
    assert 2 * x / 2 == x && (2 * x + 1) / 2 == x;
  }

  /** The missing code differs from that of byte 7 in its last bit. */
  lemma MissingBesideSeven(t: Table)
    requires t[7] == Entry(0xfffffe7, 28)
    ensures BitsOf(MISSING, 28)[..27] == Code(t, 7)[..27]
  {
    var x, n: nat := 0x7fffff3, 27;
    Siblings(x, n);
  }

  /** Walking bits that leave a code at their last one. */
  lemma {:induction false} WalkBeside(t: Table, s: nat, m: BitString, i: nat, rest: BitString)
    requires s <= EOS && |m| == |Code(t, s)| && i < |m| && m[..|m| - 1] == Code(t, s)[..|m| - 1] && !IsNode(t, m)
    ensures Walk(t, m[i..] + rest, m[..i]) == None
    decreases |m| - i
  {
    var bits := m[i..] + rest;
    assert bits[0] == m[i] && bits[1..] == m[i + 1..] + rest && m[..i] + [m[i]] == m[..i + 1];
    if i == |m| - 1 {
      assert m[..|m|] == m;
    } else {
      assert m[..i + 1] == m[..|m| - 1][..i + 1] == Code(t, s)[..i + 1];
      ProperPrefixIsInner(t, s, i + 1);
      WalkBeside(t, s, m, i + 1, rest);
    }
  }

  lemma LeafIsCode(t: Table, path: BitString)
    requires Complete(t) && IsNode(t, path) && IsLeaf(t, path)
    ensures LastSymbol(t, EOS + 1, path) >= 0
  {
    RootIsInner(t);
    var s :| 0 <= s <= EOS && path <= Code(t, s);
    if path != Code(t, s) {
      assert path == Code(t, s)[..|path|];
      ProperPrefixIsInner(t, s, |path|);
    }
  }

  lemma RootIsInner(t: Table)
    requires Complete(t)
    ensures !IsLeaf(t, [])
  {
    assert InRange(t, 0);
    ProperPrefixIsInner(t, 0, 0);
    assert Code(t, 0)[..0] == [];
  }

  lemma {:induction false} EncodedCons(t: Table, s: Byte, value: seq<Byte>)
    ensures Encoded(t, [s] + value) == Code(t, s) + Encoded(t, value)
    decreases |value|
  {
    if value == [] {
      assert [s] + value == [s] && [s][..0] == [];
    } else {
      var init := value[..|value| - 1];
      EncodedCons(t, s, init);
      assert ([s] + value)[..|value|] == [s] + init;
      Associate(Code(t, s), Encoded(t, init), Code(t, value[|value| - 1]));
    }
  }

  /** The bits are the codes of `value`, the missing code, and anything. */
  ghost predicate Breaks(t: Table, bits: BitString, value: seq<Byte>, rest: BitString) {
    bits == Encoded(t, value) + (BitsOf(MISSING, 28) + rest)
  }

  lemma BreaksLater(t: Table, s: Byte, bits: BitString, value: seq<Byte>, rest: BitString)
    requires Breaks(t, bits, value, rest)
    ensures Breaks(t, Code(t, s) + bits, [s] + value, rest)
  {
    EncodedCons(t, s, value);
    Associate(Code(t, s), Encoded(t, value), BitsOf(MISSING, 28) + rest);
  }

  lemma {:induction false} FindMissing(t: Table, bits: BitString, path: BitString) returns (value: seq<Byte>, rest: BitString)
    requires Complete(t) && IsNode(t, path) && !IsLeaf(t, path) && Walk(t, bits, path) == None
    ensures Breaks(t, path + bits, value, rest)
    decreases |bits|
  {
    var next := path + [bits[0]];
    assert path + bits == next + bits[1..];
    if !IsNode(t, next) {
      BitLeads(t, path, bits[0]);
      value, rest := [], bits[1..];
      assert Encoded(t, []) == [];
    } else if !IsLeaf(t, next) {
      value, rest := FindMissing(t, bits[1..], next);
    } else {
      LeafIsCode(t, next);
      RootIsInner(t);
      var symbol := LastSymbol(t, EOS + 1, next);
      value, rest := FindMissing(t, bits[1..], []);
      assert [] + bits[1..] == bits[1..];
      BreaksLater(t, symbol, bits[1..], value, rest);
      value := [symbol] + value;
    }
  }

  lemma BreaksOff(t: Table, value: seq<Byte>, rest: BitString)
    requires Complete(t) && Decodable(t) && t[7] == Entry(0xfffffe7, 28)
    ensures Walk(t, Encoded(t, value) + (BitsOf(MISSING, 28) + rest), []) == None
  {
    var m := BitsOf(MISSING, 28);
    WalkEncoded(t, value, m + rest);
    NoNodeAtMissing(t);
    MissingBesideSeven(t);
    WalkBeside(t, 7, m, 0, rest);
    assert m[0..] == m && m[..0] == [];
  }

  /** The decoder leaves the tree, at a null child, exactly on the bits that are the codes of
      some string followed by the missing code. */
  lemma LeavesTreeIff(bits: BitString)
    ensures Walk(SHIPPED, bits, []) == None <==> exists value, rest :: Breaks(SHIPPED, bits, value, rest)
  {
    ShippedComplete();
    if Walk(SHIPPED, bits, []) == None {
      RootIsInner(SHIPPED);
      var value, rest := FindMissing(SHIPPED, bits, []);
      assert [] + bits == bits;
    }
    if value, rest :| Breaks(SHIPPED, bits, value, rest) {
      ShippedDecodable();
      BreaksOff(SHIPPED, value, rest);
    }
  }

  lemma StartsWithMissing(bits: BitString, rest: BitString)
    requires bits == BitsOf(MISSING, 28) + rest
    ensures Walk(SHIPPED, bits, []) == None
  {
    ShippedComplete();
    ShippedDecodable();
    BreaksOff(SHIPPED, [], rest);
    assert Encoded(SHIPPED, []) == [] && [] + bits == bits;
  }

  lemma ShiftByte(x: nat)
    ensures Shl(x, 8) == x * 256
  {
    Pow2Byte();
    ShlIsProduct(x, 8);
  }

  lemma LastByte(bytes: seq<Byte>, b: Byte)
    ensures AllBits(bytes + [b]) == AllBits(bytes) + BitsOf(b, 8)
  {
    assert (bytes + [b])[..|bytes|] == bytes;
  }

  lemma OneMoreByte(bytes: seq<Byte>, x: nat, n: nat, b: Byte)
    requires AllBits(bytes) == BitsOf(x, n)
    ensures AllBits(bytes + [b]) == BitsOf(x * 256 + b, n + 8)
  {
    LastByte(bytes, b);
    ShiftByte(x);
    Pow2Byte();
    BitsConcat(x, b, n, 8);
  }

  /** Bytes as one number, the first the most significant. */
  function Number(bytes: seq<Byte>): nat {
    if bytes == [] then 0 else Number(bytes[..|bytes| - 1]) * 256 + bytes[|bytes| - 1]
  }

  lemma {:induction false} NumberBits(bytes: seq<Byte>)
    ensures AllBits(bytes) == BitsOf(Number(bytes), 8 * |bytes|)
  {
    if bytes == [] {
    } else {
      var init, last := bytes[..|bytes| - 1], bytes[|bytes| - 1];
      NumberBits(init);
      OneMoreByte(init, Number(init), 8 * |init|, last);
      assert init + [last] == bytes;
    }
  }

  lemma ShiftFour(x: nat)
    ensures Shr(x, 4) == x / 16
  {
    var a := x / 2;
    var b := a / 2;
    var c := b / 2;
    assert Shr(x, 4) == Shr(a, 3) == Shr(b, 2) == Shr(c, 1) == Shr(c / 2, 0);
  }

  /** Such bits are received in four bytes, for one: ff ff fe, and 6 in the high half. */
  lemma GapIsReceived(bytes: seq<Byte>)
    requires |bytes| == 4 && Number(bytes) / 16 == MISSING
    ensures Walk(SHIPPED, AllBits(bytes), []) == None
  {
    var x, len := Number(bytes), 8 * |bytes| - 4;
    NumberBits(bytes);
    CutBits(x, len, 4);
    ShiftFour(x);
    StartsWithMissing(AllBits(bytes), BitsOf(x, 4));
  }
}
