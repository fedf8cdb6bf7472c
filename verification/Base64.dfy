/** Base64 decoding against the encoding of section 4 of RFC 4648. */
module Base64 {
  import opened Basics

  /** A value of six bits */
  type Sextet = v: int | 0 <= v < 64

  // ----- the alphabet -----

  /** `to_base64` */
  function ToBase64(v: Sextet): (c: Byte)
    ensures FromBase64(c) == v && c != '=' as int
  {
    if v < 26 then 65 + v else if v < 52 then 97 + v - 26 else if v < 62 then 48 + v - 52 else if v == 62 then 43 else 47
  }

  /** `from_base64`; other characters count as 0. */
  function FromBase64(c: Byte): Sextet {
    if 65 <= c <= 90 then c - 65
    else if 97 <= c <= 122 then c - 97 + 26
    else if 48 <= c <= 57 then c - 48 + 52
    else if c == 43 then 62
    else if c == 47 then 63
    else 0
  }

  const PAD: Byte := '=' as int

  const UPPER: string := "ABCDEFGHIJKLMNOPQRSTUVWXYZ"
  const LOWER: string := "abcdefghijklmnopqrstuvwxyz"
  const DIGITS: string := "0123456789"

  /** The alphabet of section 4 of RFC 4648. */
  const ALPHABET: string := UPPER + LOWER + DIGITS + "+/"

  lemma Letters(v: nat, upper: string, lower: string)
    requires v < 26 && upper == UPPER && lower == LOWER
    ensures |upper| == |lower| == 26 && upper[v] as int == 65 + v && lower[v] as int == 97 + v
  {
  }

  lemma InAlphabet(v: Sextet)
    ensures |ALPHABET| == 64 && ToBase64(v) == ALPHABET[v] as int
  {
    Letters(if v < 26 then v else if v < 52 then v - 26 else 0, UPPER, LOWER);
    assert v < 26 ==> ALPHABET[v] == UPPER[v];
    assert 26 <= v < 52 ==> ALPHABET[v] == LOWER[v - 26];
    assert 52 <= v < 62 ==> ALPHABET[v] == DIGITS[v - 52];
    assert 62 <= v ==> ALPHABET[v] == "+/"[v - 62];
  }

  /** A character that is not in the alphabet counts as 0. */
  lemma OtherIsZero(c: Byte)
    requires c as char !in ALPHABET
    ensures FromBase64(c) == 0
  {
    InAlphabet(FromBase64(c));
    assert FromBase64(c) != 0 ==> c == ToBase64(FromBase64(c));
    assert ALPHABET[FromBase64(c)] in ALPHABET;
  }

  // ----- a group: three bytes, four sextets -----

  type Sextets = (Sextet, Sextet, Sextet, Sextet)

  function Split(a: Byte, b: Byte, c: Byte): Sextets {
    (a / 4, a % 4 * 16 + b / 16, b % 16 * 4 + c / 64, c % 64)
  }

  /** The four sextets are the 24 bits of the bytes, most significant first. */
  lemma SplitBits(a: Byte, b: Byte, c: Byte)
    ensures var v := Split(a, b, c); v.0 * 0x4_0000 + v.1 * 0x1000 + v.2 * 0x40 + v.3 == a * 0x1_0000 + b * 0x100 + c
  {
  }

  /** `(val1 << 2) + (val2 >> 4)` and the like, in 8 bits */
  function First(v1: Sextet, v2: Sextet): Byte { (v1 * 4 + v2 / 16) % 256 }
  function Second(v2: Sextet, v3: Sextet): Byte { (v2 * 16 + v3 / 4) % 256 }
  function Third(v3: Sextet, v4: Sextet): Byte { (v3 * 64 + v4) % 256 }

  lemma FirstRoundTrip(a: Byte, b: Byte)
    ensures First(a / 4, a % 4 * 16 + b / 16) == a
  {
    assert (a % 4 * 16 + b / 16) / 16 == a % 4;
  }

  lemma Remainder(p: nat, r: nat)
    requires p < 4 && r < 256
    ensures (p * 256 + r) % 256 == r
  {
  }

  /** The middle byte's high and low half are `x` and `y`. */
  lemma MiddleByte(p: nat, x: nat, y: nat, q: nat)
    requires p < 4 && x < 16 && y < 16 && q < 4
    ensures Second(p * 16 + x, y * 4 + q) == x * 16 + y
  {
    assert (y * 4 + q) / 4 == y;
    assert (p * 16 + x) * 16 + (y * 4 + q) / 4 == p * 256 + (x * 16 + y);
    Remainder(p, x * 16 + y);
  }

  lemma SecondRoundTrip(a: Byte, b: Byte, c: Byte)
    ensures Second(a % 4 * 16 + b / 16, b % 16 * 4 + c / 64) == b
  {
    MiddleByte(a % 4, b / 16, b % 16, c / 64);
  }

  lemma ThirdRoundTrip(b: Byte, c: Byte)
    ensures Third(b % 16 * 4 + c / 64, c % 64) == c
  {
    assert ((b % 16 * 4 + c / 64) * 64) % 256 == (c / 64) * 64;
  }

  // ----- the code -----

  /** The two tables and the arithmetic of a group; the proofs use only that they undo one
      another. */
  datatype Code = Code(
    to: Sextet -> Byte, from: Byte -> Sextet,
    split: (Byte, Byte, Byte) -> Sextets,
    first: (Sextet, Sextet) -> Byte, second: (Sextet, Sextet) -> Byte, third: (Sextet, Sextet) -> Byte)

  const STANDARD := Code(ToBase64, FromBase64, Split, First, Second, Third)

  ghost predicate Inverse(code: Code) {
    && (forall v: Sextet :: code.from(code.to(v)) == v && code.to(v) != PAD)
    && (forall a: Byte, b: Byte, c: Byte :: Splits(code, a, b, c))
  }

  ghost predicate Splits(code: Code, a: Byte, b: Byte, c: Byte) {
    var v := code.split(a, b, c);
    code.first(v.0, v.1) == a && code.second(v.1, v.2) == b && code.third(v.2, v.3) == c
  }

  lemma StandardInverse()
    ensures Inverse(STANDARD)
  {
    forall a: Byte, b: Byte, c: Byte ensures Splits(STANDARD, a, b, c) {
      FirstRoundTrip(a, b);
      SecondRoundTrip(a, b, c);
      ThirdRoundTrip(b, c);
    }
  }

  // ----- encoding, by groups of three -----

  function Groups(size: nat): nat {
    if size == 0 then 0 else if size < 3 then 1 else 1 + Groups(size - 3)
  }

  /** Missing bytes of the last group count as 0. */
  function Encoded(data: seq<Byte>, code: Code): (text: seq<Byte>)
    ensures |text| == Groups(|data|) * 4
  {
    if data == [] then []
    else if |data| == 1 then
      var v := code.split(data[0], 0, 0);
      [code.to(v.0), code.to(v.1), PAD, PAD]
    else if |data| == 2 then
      var v := code.split(data[0], data[1], 0);
      [code.to(v.0), code.to(v.1), code.to(v.2), PAD]
    else
      var v := code.split(data[0], data[1], data[2]);
      [code.to(v.0), code.to(v.1), code.to(v.2), code.to(v.3)] + Encoded(data[3..], code)
  }

  // ----- decoding -----

  /** What one group of four characters stands for. */
  function Group(t: seq<Byte>, code: Code): (bytes: seq<Byte>)
    requires |t| >= 4
    ensures 1 <= |bytes| <= 3
  {
    var v1, v2, v3, v4 := code.from(t[0]), code.from(t[1]), code.from(t[2]), code.from(t[3]);
    if t[2] == PAD then [code.first(v1, v2)]
    else if t[3] == PAD then [code.first(v1, v2), code.second(v2, v3)]
    else [code.first(v1, v2), code.second(v2, v3), code.third(v3, v4)]
  }

  predicate IsWhole(t: seq<Byte>)
    requires |t| >= 4
  {
    t[2] != PAD && t[3] != PAD
  }

  /** `base64_decode`: whole groups of four, up to the first padded one. */
  function Decoded(text: seq<Byte>, code: Code): seq<Byte> {
    if |text| < 4 then []
    else if IsWhole(text) then Group(text, code) + Decoded(text[4..], code)
    else Group(text, code)
  }

  /** `base64_decode_len` */
  function DecodeLen(text: seq<Byte>): nat {
    if |text| < 4 then 0 else
      var len := |text| * 3 / 4;
      if text[|text| - 2] == PAD then len - 2 else if text[|text| - 1] == PAD then len - 1 else len
  }

  // ----- the loop -----

  /** `*dest++ = b` */
  method PutByte(dest: array<Byte>, ghost at: nat, end: nat, b: Byte)
    requires at <= end < dest.Length
    modifies dest
    ensures dest[at..end + 1] == old(dest[at..end]) + [b]
    ensures forall k :: 0 <= k < dest.Length && k != end ==> dest[k] == old(dest[k])
  {
    dest[end] := b;
  }

  /** One turn of the loop: a group of four; `more` is false where the source breaks off. */
  method DecodeGroup(t: seq<Byte>, code: Code, dest: array<Byte>, ghost at: nat, start: nat)
    returns (end: nat, more: bool)
    requires |t| >= 4 && at <= start && start + |Group(t, code)| <= dest.Length
    modifies dest
    ensures end == start + |Group(t, code)| && (more <==> IsWhole(t))
    ensures dest[at..end] == old(dest[at..start]) + Group(t, code)
    ensures forall k :: 0 <= k < dest.Length && !(start <= k < end) ==> dest[k] == old(dest[k])
  {
    end := start;
    var val1, val2 := code.from(t[0]), code.from(t[1]);
    PutByte(dest, at, end, code.first(val1, val2));
    end := end + 1;
    if t[2] == PAD {
      return end, false;
    }
    var val3 := code.from(t[2]);
    PutByte(dest, at, end, code.second(val2, val3));
    end := end + 1;
    if t[3] == PAD {
      return end, false;
    }
    var val4 := code.from(t[3]);
    PutByte(dest, at, end, code.third(val3, val4));
    end := end + 1;
    more := true;
  }

  lemma NextGroup(done: seq<Byte>, t: seq<Byte>, code: Code)
    requires |t| >= 4 && IsWhole(t)
    ensures done + Decoded(t, code) == (done + Group(t, code)) + Decoded(t[4..], code)
  {
  }

  /** `base64_decode`, writing to `dest`; it stops where no group of four is left. */
  method Base64Decode(buffer: seq<Byte>, code: Code, dest: array<Byte>, at: nat) returns (end: nat)
    requires at + |Decoded(buffer, code)| <= dest.Length
    modifies dest
    ensures at <= end <= dest.Length && dest[at..end] == Decoded(buffer, code)
    ensures forall k :: 0 <= k < dest.Length && !(at <= k < end) ==> dest[k] == old(dest[k])
  {
    var start: nat := 0;
    var stop := |buffer| / 4 * 4;
    ghost var groups: nat := |buffer| / 4;
    assert stop <= |buffer| < stop + 4;
    end := at;
    assert buffer[0..] == buffer;
    while start < stop
      invariant start + 4 * groups == stop && start <= stop && at <= end <= dest.Length
      invariant dest[at..end] + Decoded(buffer[start..], code) == Decoded(buffer, code)
      invariant forall k :: 0 <= k < dest.Length && !(at <= k < end) ==> dest[k] == old(dest[k])
    {
      ghost var done, t := dest[at..end], buffer[start..];
      if IsWhole(t) {
        NextGroup(done, t, code);
        assert t[4..] == buffer[start + 4..];
      }
      var more;
      end, more := DecodeGroup(buffer[start..], code, dest, at, end);
      if !more {
        return;
      }
      start := start + 4;
      groups := groups - 1;
    }
    assert Decoded(buffer[start..], code) == [];
  }

  // ----- round trip -----

  lemma DecodeThree(v: Sextets, rest: seq<Byte>, code: Code)
    requires Inverse(code)
    ensures Decoded([code.to(v.0), code.to(v.1), code.to(v.2), code.to(v.3)] + rest, code)
         == [code.first(v.0, v.1), code.second(v.1, v.2), code.third(v.2, v.3)] + Decoded(rest, code)
  {
    assert ([code.to(v.0), code.to(v.1), code.to(v.2), code.to(v.3)] + rest)[4..] == rest;
  }

  /** Decoding undoes the encoding. */
  lemma {:induction false} DecodeEncoded(data: seq<Byte>, code: Code)
    requires Inverse(code)
    ensures Decoded(Encoded(data, code), code) == data
    decreases |data|
  {
    if data == [] {
    } else if |data| == 1 {
      assert Splits(code, data[0], 0, 0);
    } else if |data| == 2 {
      assert Splits(code, data[0], data[1], 0);
    } else {
      assert Splits(code, data[0], data[1], data[2]);
      DecodeThree(code.split(data[0], data[1], data[2]), Encoded(data[3..], code), code);
      DecodeEncoded(data[3..], code);
      assert data == [data[0], data[1], data[2]] + data[3..];
    }
  }

  // ----- the announced length -----

  /** No padding character stands in the third or fourth place of a group before the last. */
  predicate PaddedOnlyAtEnd(text: seq<Byte>) {
    forall i :: 0 <= i < |text| - 4 && i % 4 >= 2 ==> text[i] != PAD
  }

  /** The bytes that padding takes away from the last of whole groups. */
  function Padding(whole: seq<Byte>): nat
    requires |whole| >= 4
  {
    if whole[|whole| - 2] == PAD then 2 else if whole[|whole| - 1] == PAD then 1 else 0
  }

  lemma {:induction false} WholeLength(text: seq<Byte>, groups: nat, code: Code)
    requires |text| == 4 * groups && groups > 0
    ensures PaddedOnlyAtEnd(text) ==> |Decoded(text, code)| == 3 * groups - Padding(text)
    ensures !PaddedOnlyAtEnd(text) ==> |Decoded(text, code)| <= 3 * groups - 4
    decreases groups
  {
    if groups == 1 {
      assert Decoded(text[4..], code) == [];
    } else {
      WholeLength(text[4..], groups - 1, code);
      if IsWhole(text) {
        SameTail(text);
      } else {
        assert !PaddedOnlyAtEnd(text);
      }
    }
  }

  /** What does not fill a group of four is left out. */
  lemma {:induction false} DecodesWholeGroups(text: seq<Byte>, code: Code)
    ensures Decoded(text, code) == Decoded(text[..|text| / 4 * 4], code)
    decreases |text|
  {
    if |text| < 4 {
    } else {
      DecodesWholeGroups(text[4..], code);
      assert text[4..][..|text[4..]| / 4 * 4] == text[..|text| / 4 * 4][4..];
    }
  }

  /** The text announces its own decoded length: padding appears in the last whole group
      alone, and up to three characters behind it make up for the length they add. */
  predicate Announces(text: seq<Byte>) {
    var whole, rest := text[..|text| / 4 * 4], text[|text| / 4 * 4..];
    |text| < 4 || (
      PaddedOnlyAtEnd(whole) &&
      if |rest| == 0 then true
      else if |rest| == 1 then
        || (Padding(whole) == 0 && rest[0] != PAD)
        || (Padding(whole) == 2 && whole[|whole| - 1] == PAD)
      else if |rest| == 2 then
        || (Padding(whole) == 0 && rest[0] != PAD && rest[1] == PAD)
        || (Padding(whole) == 1 && rest[0] == PAD)
      else Padding(whole) == 0 && rest[1] == PAD)
  }

  lemma AnnouncedLength(text: seq<Byte>, whole: seq<Byte>, rest: seq<Byte>, groups: nat)
    requires groups > 0 && |whole| == 4 * groups && |rest| < 4 && text == whole + rest
    ensures rest == [] ==> DecodeLen(text) == 3 * groups - Padding(whole)
    ensures |rest| == 1 ==>
              DecodeLen(text) == 3 * groups - if whole[|whole| - 1] == PAD then 2 else if rest[0] == PAD then 1 else 0
    ensures |rest| == 2 ==>
              DecodeLen(text) == 3 * groups + 1 - if rest[0] == PAD then 2 else if rest[1] == PAD then 1 else 0
    ensures |rest| == 3 ==>
              DecodeLen(text) == 3 * groups + 2 - if rest[1] == PAD then 2 else if rest[2] == PAD then 1 else 0
  {
    assert |text| == 4 * groups + |rest|;
  }

  /** Exactly when the announced length is what is written, for texts of any length. */
  lemma DecodeLenIff(text: seq<Byte>, code: Code)
    ensures DecodeLen(text) == |Decoded(text, code)| <==> Announces(text)
  {
    if |text| < 4 {
    } else {
      var groups := |text| / 4;
      var whole, rest := text[..groups * 4], text[groups * 4..];
      WholeLength(whole, groups, code);
      DecodesWholeGroups(text, code);
      AnnouncedLength(text, whole, rest, groups);
    }
  }

  /** What is decoded fits the announced length: with padding before the last whole group
      always, and otherwise when the characters behind it announce no less than it holds. */
  predicate Fits(text: seq<Byte>) {
    var whole, rest := text[..|text| / 4 * 4], text[|text| / 4 * 4..];
    |text| < 4 || !PaddedOnlyAtEnd(whole) || (
      if |rest| == 1 then Padding(whole) == 2 || (Padding(whole) == 0 && rest[0] != PAD)
      else if |rest| == 2 then Padding(whole) > 0 || rest[0] != PAD
      else true)
  }

  /** Exactly when a buffer of the announced length is large enough. */
  lemma DecodedFitsIff(text: seq<Byte>, code: Code)
    ensures |Decoded(text, code)| <= DecodeLen(text) <==> Fits(text)
  {
    if |text| < 4 {
    } else {
      var groups := |text| / 4;
      var whole, rest := text[..groups * 4], text[groups * 4..];
      WholeLength(whole, groups, code);
      DecodesWholeGroups(text, code);
      AnnouncedLength(text, whole, rest, groups);
    }
  }

  /** "AAAA=" announces two bytes, and three are written. */
  lemma OneTooMany(text: seq<Byte>, code: Code)
    requires |text| == 5 && PAD !in text[..4] && text[4] == PAD
    ensures DecodeLen(text) == 2 && |Decoded(text, code)| == 3
  {
    assert text[2] == text[..4][2] && text[3] == text[..4][3];
    assert Decoded(text[4..], code) == [];
  }

  lemma SameTail(text: seq<Byte>)
    requires |text| > 4 && text[2] != PAD && text[3] != PAD
    ensures PaddedOnlyAtEnd(text) <==> PaddedOnlyAtEnd(text[4..])
  {
    var rest := text[4..];
    if PaddedOnlyAtEnd(text) {
      forall i | 0 <= i < |rest| - 4 && i % 4 >= 2 ensures rest[i] != PAD {
        assert text[i + 4] != PAD;
      }
    }
    if PaddedOnlyAtEnd(rest) {
      forall i | 0 <= i < |text| - 4 && i % 4 >= 2 ensures text[i] != PAD {
        if i >= 4 { assert rest[i - 4] != PAD; }
      }
    }
  }

  lemma {:induction false} EncodedPadding(data: seq<Byte>, code: Code)
    requires Inverse(code)
    ensures PaddedOnlyAtEnd(Encoded(data, code))
    decreases |data|
  {
    if |data| <= 3 {
    } else {
      EncodedPadding(data[3..], code);
      assert Encoded(data, code)[4..] == Encoded(data[3..], code);
      SameTail(Encoded(data, code));
    }
  }

  /** For every encoding the announced length is the data's, and what is written. */
  lemma EncodedLength(data: seq<Byte>)
    ensures DecodeLen(Encoded(data, STANDARD)) == |Decoded(Encoded(data, STANDARD), STANDARD)|
    ensures Decoded(Encoded(data, STANDARD), STANDARD) == data
  {
    var text := Encoded(data, STANDARD);
    StandardInverse();
    EncodedPadding(data, STANDARD);
    assert text[..|text| / 4 * 4] == text;
    DecodeLenIff(text, STANDARD);
    DecodeEncoded(data, STANDARD);
  }
}
