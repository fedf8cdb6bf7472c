/** The Huffman code of RFC 7541 on bit strings: what a code table means, what the
    encoder must produce and what walking the code tree yields. */
module HuffmanCode {
  import opened Basics
  import opened Bits

  /** `huffman_entry` */
  datatype Entry = Entry(code: nat, codeLen: nat)

  /** One entry for every byte value, and one for EOS. */
  type Table = t: seq<Entry> | |t| == 257 witness seq(257, _ => Entry(0, 0))

  const EOS: nat := 256

  function Code(t: Table, symbol: nat): BitString
    requires symbol <= EOS
  {
    BitsOf(t[symbol].code, t[symbol].codeLen)
  }

  /** Every code is stored in a 32-bit word and fits its length. */
  ghost predicate Fits(t: Table) {
    forall s :: 0 <= s <= EOS ==> 1 <= t[s].codeLen <= 32 && t[s].code < Pow2(t[s].codeLen)
  }

  /** The last symbol among the first `n` whose code is `path`, or -1: the symbol that
      building the tree in order leaves at `path`. */
  function LastSymbol(t: Table, n: nat, path: BitString): (s: int)
    requires n <= EOS + 1
    ensures -1 <= s < n && (s >= 0 ==> Code(t, s) == path)
    ensures forall s' :: s < s' < n ==> Code(t, s') != path
  {
    if n == 0 then -1 else if Code(t, n - 1) == path then n - 1 else LastSymbol(t, n - 1, path)
  }

  /** The symbol that the code of `s` decodes to. */
  function Decoded(t: Table, s: nat): nat
    requires s <= EOS
  {
    LastSymbol(t, EOS + 1, Code(t, s))
  }

  /** The nodes of the code tree, by their paths. */
  ghost predicate IsNode(t: Table, path: BitString) {
    path == [] || exists s :: 0 <= s <= EOS && path <= Code(t, s)
  }

  ghost predicate IsLeaf(t: Table, path: BitString) {
    !IsNode(t, path + [false]) && !IsNode(t, path + [true])
  }

  predicate NotProperPrefix(t: Table, a: nat, b: nat)
    requires a <= EOS && b <= EOS
  {
    Code(t, a) <= Code(t, b) ==> Code(t, a) == Code(t, b)
  }

  /** The table can be decoded: no code is a proper prefix of another, and the 1 to 7
      one bits of padding are a proper prefix of EOS. */
  ghost predicate Decodable(t: Table) {
    && Fits(t)
    && (forall a, b :: 0 <= a <= EOS && 0 <= b <= EOS ==> NotProperPrefix(t, a, b))
    && t[EOS].codeLen >= 8 && Ones(7) <= Code(t, EOS)
    && (forall s :: 0 <= s < EOS ==> Decoded(t, s) != EOS)
  }

  /** Walking the tree from the node `path`: the symbols emitted, or None when the walk
      leaves the tree. EOS ends the walk. */
  ghost function Walk(t: Table, bits: BitString, path: BitString): Option<seq<nat>>
    decreases |bits|
  {
    if bits == [] then Some([]) else
      var next := path + [bits[0]];
      if !IsNode(t, next) then None
      else if !IsLeaf(t, next) then Walk(t, bits[1..], next)
      else
        var symbol := LastSymbol(t, EOS + 1, next);
        if symbol < 0 then None
        else if symbol == EOS then Some([])
        else match Walk(t, bits[1..], [])
          case None => None
          case Some(rest) => Some([symbol] + rest)
  }

  /** The codes of a string, one after the other. */
  function Encoded(t: Table, value: seq<Byte>): BitString {
    if value == [] then [] else Encoded(t, value[..|value| - 1]) + Code(t, value[|value| - 1])
  }

  function DecodedAll(t: Table, value: seq<Byte>): (symbols: seq<nat>)
    ensures |symbols| == |value|
    ensures forall i :: 0 <= i < |value| ==> symbols[i] == Decoded(t, value[i])
  {
    if value == [] then [] else DecodedAll(t, value[..|value| - 1]) + [Decoded(t, value[|value| - 1])]
  }

  /** `huffman_string_size` */
  function EncodedSize(t: Table, value: seq<Byte>): nat {
    (7 + |Encoded(t, value)|) / 8
  }

  /** A byte string is a packing of `value` when its bits are the codes followed by fewer
      than eight one bits (section 5.2 of RFC 7541). */
  ghost predicate Packs(t: Table, bytes: seq<Byte>, value: seq<Byte>) {
    && |bytes| == EncodedSize(t, value)
    && AllBits(bytes) == Encoded(t, value) + Ones(8 * |bytes| - |Encoded(t, value)|)
  }

  // ----- decoding undoes encoding -----

  lemma CodeIsNode(t: Table, s: nat, i: nat)
    requires s <= EOS && i <= |Code(t, s)|
    ensures IsNode(t, Code(t, s)[..i])
  {
    assert Code(t, s)[..i] <= Code(t, s);
  }

  lemma ShorterPrefix(c: BitString, b: bool, d: BitString)
    ensures c + [b] <= d ==> c <= d && c != d
  {
  }

  lemma CodeIsLeaf(t: Table, s: nat)
    requires Decodable(t) && s <= EOS
    ensures IsLeaf(t, Code(t, s))
  {
    var c := Code(t, s);
    forall s', b: bool | 0 <= s' <= EOS ensures !(c + [b] <= Code(t, s')) {
      assert NotProperPrefix(t, s, s');
      ShorterPrefix(c, b, Code(t, s'));
    }
  }

  lemma ProperPrefixIsInner(t: Table, s: nat, i: nat)
    requires s <= EOS && i < |Code(t, s)|
    ensures IsNode(t, Code(t, s)[..i]) && !IsLeaf(t, Code(t, s)[..i])
  {
    var c := Code(t, s);
    CodeIsNode(t, s, i);
    CodeIsNode(t, s, i + 1);
    assert c[..i + 1] == if c[i] then c[..i] + [true] else c[..i] + [false];
  }

  ghost function Prepend(symbols: seq<nat>, r: Option<seq<nat>>): Option<seq<nat>> {
    match r case None => None case Some(rest) => Some(symbols + rest)
  }

  lemma PrependTwice(a: seq<nat>, b: seq<nat>, r: Option<seq<nat>>)
    ensures Prepend(a, Prepend(b, r)) == Prepend(a + b, r)
  {
    if r.Some? { assert a + (b + r.value) == (a + b) + r.value; }
  }

  lemma PrependNothing(r: Option<seq<nat>>)
    ensures Prepend([], r) == r
  {
    if r.Some? { assert [] + r.value == r.value; }
  }

  /** The rest of a code, walked from where its first `i` bits lead. */
  lemma {:induction false} WalkCode(t: Table, s: Byte, i: nat, rest: BitString)
    requires Decodable(t) && i < |Code(t, s)|
    ensures Walk(t, Code(t, s)[i..] + rest, Code(t, s)[..i]) == Prepend([Decoded(t, s)], Walk(t, rest, []))
    decreases |Code(t, s)| - i
  {
    var c := Code(t, s);
    var bits := c[i..] + rest;
    assert bits[0] == c[i] && bits[1..] == c[i + 1..] + rest;
    assert c[..i] + [c[i]] == c[..i + 1];
    if i + 1 < |c| {
      ProperPrefixIsInner(t, s, i + 1);
      WalkCode(t, s, i + 1, rest);
    } else {
      CodeIsNode(t, s, i + 1);
      CodeIsLeaf(t, s);
      assert c[..i + 1] == c && c[i + 1..] + rest == rest;
      assert Decoded(t, s) != EOS;
    }
  }

  lemma WalkWholeCode(t: Table, s: Byte, rest: BitString)
    requires Decodable(t)
    ensures Walk(t, Code(t, s) + rest, []) == Prepend([Decoded(t, s)], Walk(t, rest, []))
  {
    WalkCode(t, s, 0, rest);
    assert Code(t, s)[0..] == Code(t, s) && Code(t, s)[..0] == [];
  }

  /** Up to seven padding bits emit nothing. */
  lemma {:induction false} WalkPadding(t: Table, done: nat, left: nat)
    requires Decodable(t) && done + left <= 7
    ensures Walk(t, Ones(left), Ones(done)) == Some([])
    decreases left
  {
    if left == 0 {
    } else {
      assert Ones(left)[1..] == Ones(left - 1);
      assert Ones(done) + [true] == Ones(done + 1) == Code(t, EOS)[..done + 1];
      ProperPrefixIsInner(t, EOS, done + 1);
      WalkPadding(t, done + 1, left - 1);
    }
  }

  lemma {:induction false} WalkEncoded(t: Table, value: seq<Byte>, rest: BitString)
    requires Decodable(t)
    ensures Walk(t, Encoded(t, value) + rest, []) == Prepend(DecodedAll(t, value), Walk(t, rest, []))
    decreases |value|
  {
    if value == [] {
      assert Encoded(t, value) + rest == rest;
      PrependNothing(Walk(t, rest, []));
    } else {
      var init, last := value[..|value| - 1], value[|value| - 1];
      WalkEncoded(t, init, Code(t, last) + rest);
      Associate(Encoded(t, init), Code(t, last), rest);
      WalkWholeCode(t, last, rest);
      PrependTwice(DecodedAll(t, init), [Decoded(t, last)], Walk(t, rest, []));
    }
  }

  /** Decoding a packing gives every byte's representative, and the padding nothing. */
  lemma DecodesPacking(t: Table, bytes: seq<Byte>, value: seq<Byte>)
    requires Decodable(t) && Packs(t, bytes, value)
    ensures Walk(t, AllBits(bytes), []) == Some(DecodedAll(t, value))
  {
    var padding := 8 * |bytes| - |Encoded(t, value)|;
    WalkEncoded(t, value, Ones(padding));
    WalkPadding(t, 0, padding);
    assert Ones(0) == [] && DecodedAll(t, value) + [] == DecodedAll(t, value);
  }

  lemma LastIsEos(t: Table, s: nat)
    requires s == EOS
    ensures Decoded(t, s) == s
  {
  }

  lemma EosEmits(t: Table, s: nat, path: BitString, bits: BitString)
    requires Decodable(t) && s == EOS && bits != [] && path + [bits[0]] == Code(t, s)
    ensures Walk(t, bits, path) == Some([])
  {
    CodeIsNode(t, s, |Code(t, s)|);
    assert Code(t, s)[..|Code(t, s)|] == Code(t, s);
    CodeIsLeaf(t, s);
    LastIsEos(t, s);
  }

  ghost predicate WalksAs(t: Table, bits: BitString, path: BitString, r: Option<seq<nat>>) {
    Walk(t, bits, path) == r
  }

  lemma WalkInner(t: Table, s: nat, i: nat, rest: BitString, r: Option<seq<nat>>)
    requires s <= EOS && i + 1 < |Code(t, s)|
    requires WalksAs(t, Code(t, s)[i + 1..] + rest, Code(t, s)[..i + 1], r)
    ensures WalksAs(t, Code(t, s)[i..] + rest, Code(t, s)[..i], r)
  {
    var c := Code(t, s);
    var bits := c[i..] + rest;
    ProperPrefixIsInner(t, s, i + 1);
    assert bits[0] == c[i] && bits[1..] == c[i + 1..] + rest;
    assert c[..i] + [c[i]] == c[..i + 1];
  }

  ghost predicate WalksFrom(t: Table, s: nat, i: nat, rest: BitString, r: Option<seq<nat>>)
    requires s <= EOS && i <= |Code(t, s)|
  {
    WalksAs(t, Code(t, s)[i..] + rest, Code(t, s)[..i], r)
  }

  /** Walking from bit i of a code is walking from a later one. */
  lemma {:induction false} WalkDown(t: Table, s: nat, i: nat, last: nat, rest: BitString, r: Option<seq<nat>>)
    requires s <= EOS && i <= last < |Code(t, s)| && WalksFrom(t, s, last, rest, r)
    ensures WalksFrom(t, s, i, rest, r)
    decreases last - i
  {
    if i < last {
      WalkDown(t, s, i + 1, last, rest, r);
      WalkInner(t, s, i, rest, r);
    }
  }

  lemma WalkEos(t: Table, s: nat, rest: BitString)
    requires Decodable(t) && s == EOS
    ensures Walk(t, Code(t, s) + rest, []) == Some([])
  {
    var c := Code(t, s);
    var last := |c| - 1;
    assert c[..last] + [(c[last..] + rest)[0]] == c;
    EosEmits(t, s, c[..last], c[last..] + rest);
    WalkDown(t, s, 0, last, rest, Some([]));
    assert c[0..] == c && c[..0] == [];
  }

  /** A whole EOS ends the string, whatever follows it. */
  lemma EosEnds(t: Table, value: seq<Byte>, rest: BitString)
    requires Decodable(t)
    ensures Walk(t, Encoded(t, value) + (Code(t, EOS) + rest), []) == Some(DecodedAll(t, value))
  {
    WalkEncoded(t, value, Code(t, EOS) + rest);
    WalkEos(t, EOS, rest);
    assert DecodedAll(t, value) + [] == DecodedAll(t, value);
  }

  /** The round trip holds exactly for the strings in which no byte shares its code
      with a later symbol. */
  lemma RoundTripIff(t: Table, bytes: seq<Byte>, value: seq<Byte>)
    requires Decodable(t) && Packs(t, bytes, value)
    ensures Walk(t, AllBits(bytes), []) == Some(value)
       <==> forall i, s :: 0 <= i < |value| && value[i] < s <= EOS ==> Code(t, s) != Code(t, value[i])
  {
    DecodesPacking(t, bytes, value);
    if Walk(t, AllBits(bytes), []) == Some(value) {
      forall i, s | 0 <= i < |value| && value[i] < s <= EOS ensures Code(t, s) != Code(t, value[i]) {
        assert DecodedAll(t, value)[i] == value[i];
      }
    }
    if forall i, s :: 0 <= i < |value| && value[i] < s <= EOS ==> Code(t, s) != Code(t, value[i]) {
      forall i | 0 <= i < |value| ensures DecodedAll(t, value)[i] == value[i] {
      }
      assert DecodedAll(t, value) == value;
    }
  }
}
