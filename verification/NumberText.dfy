/** Unsigned 16-bit numbers as text, decimal or hexadecimal: printing and reading back. */
module NumberText {
  import opened Basics

  type Word = w: int | 0 <= w < 0x1_0000

  datatype NumberCase = Lower | Upper

  datatype Radix = Decimal | Hexadecimal {
    /** `n / radix` */
    function Quotient(n: nat): (q: nat)
      ensures n == Times(q) + Remainder(n) && q <= n && (q == n ==> n == 0)
    {
      if Decimal? then n / 10 else n / 16
    }

    /** `n % radix` */
    function Remainder(n: nat): (d: nat)
      ensures d < 16 && (Decimal? ==> d < 10)
    {
      if Decimal? then n % 10 else n % 16
    }

    function Times(n: nat): nat {
      if Decimal? then n * 10 else n * 16
    }
  }

  /** `lower_case_numbers` and `upper_case_numbers` */
  function DigitChar(d: nat, letters: NumberCase): (c: char)
    requires d < 16
    ensures CharToInt(c) == d && IsDigit(c)
  {
    if d < 10 then (48 + d) as char else if letters.Lower? then (97 + d - 10) as char else (65 + d - 10) as char
  }

  predicate IsDigit(c: char) {
    '0' <= c <= '9' || 'a' <= c <= 'f' || 'A' <= c <= 'F'
  }

  /** `char_to_int`; characters beyond its 256 entries are not part of the model. */
  function CharToInt(c: char): (d: nat)
    ensures d < 16
  {
    if '0' <= c <= '9' then c as int - '0' as int
    else if 'a' <= c <= 'f' then c as int - 'a' as int + 10
    else if 'A' <= c <= 'F' then c as int - 'A' as int + 10
    else 0
  }

  /** The digits of a number, most significant first. */
  function Digits(n: nat, radix: Radix, letters: NumberCase): (text: string)
    ensures text != []
    ensures forall i :: 0 <= i < |text| ==> IsDigit(text[i])
    decreases n, 1
  {
    Leading(n, radix, letters) + [DigitChar(radix.Remainder(n), letters)]
  }

  /** All digits but the last one. */
  function Leading(n: nat, radix: Radix, letters: NumberCase): (text: string)
    ensures forall i :: 0 <= i < |text| ==> IsDigit(text[i])
    decreases n, 0
  {
    if radix.Quotient(n) == 0 then [] else Digits(radix.Quotient(n), radix, letters)
  }

  /** Does reading stop here: at a NUL, or at a bracket where one closes the text? */
  predicate Stops(c: char, braces: bool) {
    c == '\0' || (braces && c == ']')
  }

  predicate NeverStops(s: string, braces: bool) {
    forall i :: 0 <= i < |s| ==> !Stops(s[i], braces)
  }

  /** The text up to where reading stops. */
  function Until(s: string, braces: bool): (t: string)
    ensures |t| <= |s| && t == s[..|t|] && NeverStops(t, braces)
    ensures |t| < |s| ==> Stops(s[|t|], braces)
  {
    if s == [] || Stops(s[0], braces) then [] else [s[0]] + Until(s[1..], braces)
  }

  /** `val * radix + digit` in 16-bit arithmetic */
  function AddDigit(val: Word, radix: Radix, c: char): Word {
    (radix.Times(val) + CharToInt(c)) % 0x1_0000
  }

  /** The value of a text. */
  function Number(text: string, radix: Radix): Word {
    if text == [] then 0 else AddDigit(Number(text[..|text| - 1], radix), radix, text[|text| - 1])
  }

  // ----- printing -----

  function Reversed(s: string): (r: string)
    ensures |r| == |s|
  {
    if s == [] then [] else [s[|s| - 1]] + Reversed(s[..|s| - 1])
  }

  lemma {:induction false} ReversedAt(s: string, k: nat)
    requires k < |s|
    ensures Reversed(s)[k] == s[|s| - 1 - k]
  {
    if k == 0 {
    } else {
      ReversedAt(s[..|s| - 1], k - 1);
    }
  }

  /** `std::reverse` */
  method ReverseRange(a: array<char>, from: nat, to: nat)
    requires from <= to <= a.Length
    modifies a
    ensures a[from..to] == Reversed(old(a[from..to]))
    ensures forall k :: 0 <= k < a.Length && !(from <= k < to) ==> a[k] == old(a[k])
  {
    var i, j := from, to;
    while i + 1 < j
      invariant from <= i <= j + 1 && j <= to && i + j == from + to
      invariant forall k :: from <= k < i || j <= k < to ==> a[k] == old(a[from + to - 1 - k])
      invariant forall k :: i <= k < j ==> a[k] == old(a[k])
      invariant forall k :: 0 <= k < a.Length && !(from <= k < to) ==> a[k] == old(a[k])
    {
      j := j - 1;
      a[i], a[j] := a[j], a[i];
      i := i + 1;
    }
    ghost var was, now := old(a[from..to]), a[from..to];
    forall k | 0 <= k < |now| ensures now[k] == was[|was| - 1 - k] {
      assert now[k] == a[from + k] && was[|was| - 1 - k] == old(a[to - 1 - k]);
    }
    IsReversed(was, now);
  }

  lemma IsReversed(was: string, now: string)
    requires |now| == |was| && forall k :: 0 <= k < |now| ==> now[k] == was[|was| - 1 - k]
    ensures now == Reversed(was)
  {
    forall k | 0 <= k < |was| ensures |Reversed(was)| == |was| && now[k] == Reversed(was)[k] {
      ReversedAt(was, k);
    }
    if was == [] {
      assert Reversed(was) == [];
    }
  }

  /** `*dest_ptr++ = c` */
  method PutChar(dest: array<char>, ghost at: nat, end: nat, c: char)
    requires at <= end < dest.Length
    modifies dest
    ensures dest[at..end + 1] == old(dest[at..end]) + [c]
    ensures forall k :: 0 <= k < dest.Length && k != end ==> dest[k] == old(dest[k])
  {
    dest[end] := c;
  }

  /** One digit moves from the end of what is left to the end of what is done. */
  lemma PushDigit(leading: string, c: char, done: string)
    ensures (leading + [c]) + Reversed(done) == leading + Reversed(done + [c])
  {
    assert (done + [c])[..|done|] == done;
  }

  /** One turn of the loop of `to_string` writes the last digit of what is left. */
  method PutDigit(val: nat, radix: Radix, letters: NumberCase, dest: array<char>, ghost at: nat, end: nat) returns (rest: nat)
    requires at <= end < dest.Length
    modifies dest
    ensures rest == radix.Quotient(val)
    ensures Leading(val, radix, letters) + Reversed(dest[at..end + 1])
         == Digits(val, radix, letters) + Reversed(old(dest[at..end]))
    ensures forall k :: 0 <= k < dest.Length && k != end ==> dest[k] == old(dest[k])
  {
    PushDigit(Leading(val, radix, letters), DigitChar(radix.Remainder(val), letters), dest[at..end]);
    PutChar(dest, at, end, DigitChar(radix.Remainder(val), letters));
    rest := radix.Quotient(val);
  }

  /** The do-while loop of `to_string`: the digits from the last to the first. */
  method DigitsBackwards(val: Word, radix: Radix, letters: NumberCase, dest: array<char>, at: nat) returns (end: nat)
    requires at + |Digits(val, radix, letters)| <= dest.Length
    modifies dest
    ensures at <= end <= dest.Length && Reversed(dest[at..end]) == Digits(val, radix, letters)
    ensures forall k :: 0 <= k < dest.Length && !(at <= k < end) ==> dest[k] == old(dest[k])
  {
    var rest: nat := val;
    end := at;
    ghost var text := Digits(val, radix, letters);
    while true
      invariant at <= end <= dest.Length
      invariant text == Digits(rest, radix, letters) + Reversed(dest[at..end])
      invariant forall k :: 0 <= k < dest.Length && !(at <= k < end) ==> dest[k] == old(dest[k])
      decreases rest
    {
      rest := PutDigit(rest, radix, letters, dest, at, end);
      end := end + 1;
      if rest == 0 {
        break;
      }
    }
  }

  /** `to_string` without the closing NUL */
  method ToString(val: Word, radix: Radix, letters: NumberCase, dest: array<char>, at: nat) returns (end: nat)
    requires at + |Digits(val, radix, letters)| <= dest.Length
    modifies dest
    ensures at <= end <= dest.Length && dest[at..end] == Digits(val, radix, letters)
    ensures forall k :: 0 <= k < dest.Length && !(at <= k < end) ==> dest[k] == old(dest[k])
  {
    end := DigitsBackwards(val, radix, letters, dest, at);
    ReverseRange(dest, at, end);
  }

  // ----- reading -----

  /** `to_uint`; `len` counts the characters up to and including the NUL. */
  method ToUint(src: string, radix: Radix) returns (val: Word, len: nat)
    ensures val == Number(Until(src, false), radix) && len == |Until(src, false)| + 1
  {
    ghost var text := Until(src, false);
    val, len := 0, 0;
    while len < |src| && src[len] != '\0'
      invariant len <= |text|
      invariant val == Number(text[..len], radix)
    {
      assert text[..len + 1][..len] == text[..len];
      val := AddDigit(val, radix, src[len]);
      len := len + 1;
    }
    assert text[..len] == text;
    len := len + 1;
  }

  // ----- reading undoes printing -----

  lemma AddLastDigit(val: Word, radix: Radix, letters: NumberCase)
    ensures AddDigit(radix.Quotient(val), radix, DigitChar(radix.Remainder(val), letters)) == val
  {
  }

  lemma {:induction false} NumberOfDigits(val: Word, radix: Radix, letters: NumberCase)
    ensures Number(Digits(val, radix, letters), radix) == val
    decreases val
  {
    var text := Digits(val, radix, letters);
    assert text[..|text| - 1] == Leading(val, radix, letters);
    var q := radix.Quotient(val);
    if q == 0 {
    } else {
      NumberOfDigits(q, radix, letters);
    }
    AddLastDigit(val, radix, letters);
  }

  // ----- what a text of digits spells -----

  /** `c` is the digit of value `d`. */
  ghost predicate Means(c: char, d: nat) {
    d < 16 && (c == "0123456789abcdef"[d] || c == "0123456789ABCDEF"[d])
  }

  /** The positional value of some digits. */
  function Positional(ds: seq<nat>, base: nat): nat {
    if ds == [] then 0 else Positional(ds[..|ds| - 1], base) * base + ds[|ds| - 1]
  }

  ghost predicate Reads(text: string, base: nat, ds: seq<nat>) {
    |ds| == |text| && forall k :: 0 <= k < |text| ==> ds[k] < base && Means(text[k], ds[k])
  }

  /** The text is a numeral of that base for `n`. */
  ghost predicate Spells(text: string, base: nat, n: nat) {
    exists ds :: Reads(text, base, ds) && Positional(ds, base) == n
  }

  predicate OfCase(c: char, letters: NumberCase) {
    '0' <= c <= '9' || (if letters.Lower? then 'a' <= c <= 'f' else 'A' <= c <= 'F')
  }

  lemma DigitMeans(d: nat, letters: NumberCase)
    requires d < 16
    ensures Means(DigitChar(d, letters), d) && OfCase(DigitChar(d, letters), letters)
  {
  }

  lemma MeansValue(c: char, d: nat)
    requires Means(c, d)
    ensures CharToInt(c) == d && IsDigit(c)
  {
  }

  lemma SpellMore(text: string, base: nat, n: nat, c: char, d: nat)
    requires Spells(text, base, n) && Means(c, d) && d < base
    ensures Spells(text + [c], base, n * base + d)
  {
    var ds :| Reads(text, base, ds) && Positional(ds, base) == n;
    var more := ds + [d];
    assert more[..|more| - 1] == ds;
    assert Reads(text + [c], base, more);
  }

  lemma SpellNothing(base: nat)
    ensures Spells("", base, 0)
  {
    assert Reads("", base, []) && Positional([], base) == 0;
  }

  /** The digits printed are a numeral for the number, of base 10 or 16, in the letters
      asked for. */
  lemma {:induction false} DigitsSpell(n: nat, radix: Radix, letters: NumberCase)
    ensures Spells(Digits(n, radix, letters), if radix.Decimal? then 10 else 16, n)
    ensures forall k :: 0 <= k < |Digits(n, radix, letters)| ==> OfCase(Digits(n, radix, letters)[k], letters)
    decreases n
  {
    var q, d := radix.Quotient(n), radix.Remainder(n);
    var base := if radix.Decimal? then 10 else 16;
    DigitMeans(d, letters);
    if q == 0 {
      SpellNothing(base);
    } else {
      DigitsSpell(q, radix, letters);
    }
    SpellMore(Leading(n, radix, letters), base, q, DigitChar(d, letters), d);
  }

  lemma Wrap16(a: nat, k: nat)
    ensures (a + 0x1_0000 * k) % 0x1_0000 == a % 0x1_0000
  {
  }

  lemma AddDigitWraps(n: nat, radix: Radix, base: nat, c: char)
    requires base == if radix.Decimal? then 10 else 16
    ensures AddDigit(n % 0x1_0000, radix, c) == (n * base + CharToInt(c)) % 0x1_0000
  {
    var k, r := n / 0x1_0000, n % 0x1_0000;
    Wrap16(r * base + CharToInt(c), base * k);
  }

  /** A character that is no digit counts as 0. */
  lemma OtherIsZero(c: char)
    requires forall d: nat :: !Means(c, d)
    ensures CharToInt(c) == 0
  {
    var d := CharToInt(c);
    assert !Means(c, d) && !Means(c, 0);
  }

  predicate WrapsTo(text: string, radix: Radix, n: nat) {
    Number(text, radix) == n % 0x1_0000
  }

  lemma LastDigit(text: string, radix: Radix, ds: seq<nat>, base: nat)
    requires base == if radix.Decimal? then 10 else 16
    requires text != [] && ds != [] && CharToInt(text[|text| - 1]) == ds[|ds| - 1]
    requires WrapsTo(text[..|text| - 1], radix, Positional(ds[..|ds| - 1], base))
    ensures WrapsTo(text, radix, Positional(ds, base))
  {
    AddDigitWraps(Positional(ds[..|ds| - 1], base), radix, base, text[|text| - 1]);
  }

  lemma {:induction false} NumberReads(text: string, radix: Radix, ds: seq<nat>, base: nat)
    requires Reads(text, base, ds) && base == if radix.Decimal? then 10 else 16
    ensures WrapsTo(text, radix, Positional(ds, base))
    decreases |text|
  {
    if text == [] {
    } else {
      var last := |text| - 1;
      NumberReads(text[..last], radix, ds[..last], base);
      MeansValue(text[last], ds[last]);
      LastDigit(text, radix, ds, base);
    }
  }

  /** Whatever numeral is read gives its number, modulo 2^16. */
  lemma NumberSpelled(text: string, radix: Radix, n: nat)
    requires Spells(text, if radix.Decimal? then 10 else 16, n)
    ensures Number(text, radix) == n % 0x1_0000
  {
    var base := if radix.Decimal? then 10 else 16;
    var ds :| Reads(text, base, ds) && Positional(ds, base) == n;
    NumberReads(text, radix, ds, base);
  }

  lemma {:induction false} DigitCount(val: nat, radix: Radix, letters: NumberCase)
    ensures radix.Hexadecimal? && val < 0x1_0000 ==> |Digits(val, radix, letters)| <= 4
    ensures radix.Hexadecimal? && val < 0x1000 ==> |Digits(val, radix, letters)| <= 3
    ensures radix.Hexadecimal? && val < 0x100 ==> |Digits(val, radix, letters)| <= 2
    ensures radix.Decimal? && val < 100_000 ==> |Digits(val, radix, letters)| <= 5
    ensures radix.Decimal? && val < 10_000 ==> |Digits(val, radix, letters)| <= 4
    ensures radix.Decimal? && val < 1_000 ==> |Digits(val, radix, letters)| <= 3
    ensures radix.Decimal? && val < 100 ==> |Digits(val, radix, letters)| <= 2
    ensures radix.Quotient(val) == 0 ==> |Digits(val, radix, letters)| <= 1
    decreases val
  {
    if radix.Quotient(val) == 0 {
    } else {
      DigitCount(radix.Quotient(val), radix, letters);
    }
  }

  /** Section 4.1 of RFC 5952: no leading zeros. */
  lemma {:induction false} NoLeadingZero(val: nat, radix: Radix, letters: NumberCase)
    ensures Digits(val, radix, letters)[0] == '0' ==> val == 0
    decreases val
  {
    if radix.Quotient(val) == 0 {
      assert Digits(val, radix, letters)[0] == DigitChar(val, letters);
    } else {
      NoLeadingZero(radix.Quotient(val), radix, letters);
      assert Digits(val, radix, letters)[0] == Digits(radix.Quotient(val), radix, letters)[0];
    }
  }

  lemma {:induction false} UntilOf(s: string, rest: string, braces: bool)
    requires NeverStops(s, braces)
    requires rest == [] || Stops(rest[0], braces)
    ensures Until(s + rest, braces) == s
    decreases |s|
  {
    if s == [] {
      assert s + rest == rest;
    } else {
      assert (s + rest)[1..] == s[1..] + rest;
      UntilOf(s[1..], rest, braces);
    }
  }

  /** Printing a number with a NUL behind it and reading it gives it back. */
  lemma RoundTrip(val: Word, radix: Radix, letters: NumberCase, rest: string)
    requires rest == [] || rest[0] == '\0'
    ensures Number(Until(Digits(val, radix, letters) + rest, false), radix) == val
  {
    UntilOf(Digits(val, radix, letters), rest, false);
    NumberOfDigits(val, radix, letters);
  }
}
