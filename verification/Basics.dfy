/** Shared vocabulary: optional values, bytes, powers of two. */
module Basics {

  datatype Option<+T> = None | Some(value: T)

  type Byte = b: int | 0 <= b < 256

  function Pow2(n: nat): (p: nat)
    ensures p >= 1
  {
    if n == 0 then 1 else 2 * Pow2(n - 1)
  }

  function Max(a: int, b: int): int {
    if a < b then b else a
  }

  lemma Pow2Step(n: nat)
    ensures Pow2(n + 8) == 256 * Pow2(n)
  {
    assert Pow2(n + 8) == 2 * Pow2(n + 7) == 4 * Pow2(n + 6) == 8 * Pow2(n + 5) == 16 * Pow2(n + 4);
    assert Pow2(n + 4) == 2 * Pow2(n + 3) == 4 * Pow2(n + 2) == 8 * Pow2(n + 1) == 16 * Pow2(n);
  }

  lemma Pow2Byte()
    ensures Pow2(8) == 256
  {
    Pow2Step(0);
  }

  lemma Pow2Values()
    ensures Pow2(8) == 0x100 && Pow2(16) == 0x1_0000 && Pow2(32) == 0x1_0000_0000
    ensures Pow2(56) == 0x100_0000_0000_0000
  {
    Pow2Step(0); Pow2Step(8); Pow2Step(16); Pow2Step(24); Pow2Step(32); Pow2Step(40); Pow2Step(48);
  }

  lemma Associate<T>(a: seq<T>, b: seq<T>, c: seq<T>)
    ensures (a + b) + c == a + (b + c)
  {
  }

  lemma TimesAtLeast(k: int, b: nat)
    requires k >= 1
    ensures k * b >= b
  {
  }

  /** Quotient and remainder are unique. */
  lemma DivisionIs(q: nat, b: nat, r: nat)
    requires r < b
    ensures (q * b + r) / b == q && (q * b + r) % b == r
  {
    var a := q * b + r;
    var d := a / b - q;
    assert a == (a / b) * b + a % b;
    assert d * b == r - a % b by { assert (a / b) * b == q * b + d * b; }
    if d >= 1 { TimesAtLeast(d, b); }
    if d <= -1 { TimesAtLeast(-d, b); }
  }
}
