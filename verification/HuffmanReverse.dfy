/** The reverse table of the shipped code is right: every number in the range of its length,
    but one, is the code of the symbol that the reverse table names. */
module HuffmanReverse {
  import opened HuffmanCode
  import opened HuffmanTable

  /** The code that the table lacks. */
  const MISSING: nat := 0xfffffe6

  lemma Codes5Part1(code: nat)
    requires 0x0 <= code < 0x5
    ensures Symbol5(code) <= EOS && EntryOf(Symbol5(code)) == Entry(code, 5)
  {
  }

  lemma Codes5Part2(code: nat)
    requires 0x5 <= code < 0xa
    ensures Symbol5(code) <= EOS && EntryOf(Symbol5(code)) == Entry(code, 5)
  {
  }

  lemma Codes5(code: nat)
    requires 0x0 <= code < 0xa
    ensures Symbol5(code) <= EOS && EntryOf(Symbol5(code)) == Entry(code, 5)
  {
    if code < 0x5 { Codes5Part1(code); } else { Codes5Part2(code); }
  }

  lemma Codes6Part1(code: nat)
    requires 0x14 <= code < 0x1b
    ensures Symbol6(code) <= EOS && EntryOf(Symbol6(code)) == Entry(code, 6)
  {
  }

  lemma Codes6Part2(code: nat)
    requires 0x1b <= code < 0x22
    ensures Symbol6(code) <= EOS && EntryOf(Symbol6(code)) == Entry(code, 6)
  {
  }

  lemma Codes6Part3(code: nat)
    requires 0x22 <= code < 0x29
    ensures Symbol6(code) <= EOS && EntryOf(Symbol6(code)) == Entry(code, 6)
  {
  }

  lemma Codes6Part4(code: nat)
    requires 0x29 <= code < 0x2e
    ensures Symbol6(code) <= EOS && EntryOf(Symbol6(code)) == Entry(code, 6)
  {
  }

  lemma Codes6(code: nat)
    requires 0x14 <= code < 0x2e
    ensures Symbol6(code) <= EOS && EntryOf(Symbol6(code)) == Entry(code, 6)
  {
    if code < 0x1b { Codes6Part1(code); } else if code < 0x22 { Codes6Part2(code); } else if code < 0x29 { Codes6Part3(code); } else { Codes6Part4(code); }
  }

  lemma Codes7Part1(code: nat)
    requires 0x5c <= code < 0x64
    ensures Symbol7(code) <= EOS && EntryOf(Symbol7(code)) == Entry(code, 7)
  {
  }

  lemma Codes7Part2(code: nat)
    requires 0x64 <= code < 0x6c
    ensures Symbol7(code) <= EOS && EntryOf(Symbol7(code)) == Entry(code, 7)
  {
  }

  lemma Codes7Part3(code: nat)
    requires 0x6c <= code < 0x74
    ensures Symbol7(code) <= EOS && EntryOf(Symbol7(code)) == Entry(code, 7)
  {
  }

  lemma Codes7Part4(code: nat)
    requires 0x74 <= code < 0x7c
    ensures Symbol7(code) <= EOS && EntryOf(Symbol7(code)) == Entry(code, 7)
  {
  }

  lemma Codes7(code: nat)
    requires 0x5c <= code < 0x7c
    ensures Symbol7(code) <= EOS && EntryOf(Symbol7(code)) == Entry(code, 7)
  {
    if code < 0x64 { Codes7Part1(code); } else if code < 0x6c { Codes7Part2(code); } else if code < 0x74 { Codes7Part3(code); } else { Codes7Part4(code); }
  }

  lemma Codes8(code: nat)
    requires 0xf8 <= code < 0xfe
    ensures Symbol8(code) <= EOS && EntryOf(Symbol8(code)) == Entry(code, 8)
  {
  }

  lemma Codes10(code: nat)
    requires 0x3f8 <= code < 0x3fd
    ensures Symbol10(code) <= EOS && EntryOf(Symbol10(code)) == Entry(code, 10)
  {
  }

  lemma Codes11(code: nat)
    requires 0x7fa <= code < 0x7fd
    ensures Symbol11(code) <= EOS && EntryOf(Symbol11(code)) == Entry(code, 11)
  {
  }

  lemma Codes12(code: nat)
    requires 0xffa <= code < 0xffc
    ensures Symbol12(code) <= EOS && EntryOf(Symbol12(code)) == Entry(code, 12)
  {
  }

  lemma Codes13(code: nat)
    requires 0x1ff8 <= code < 0x1ffe
    ensures Symbol13(code) <= EOS && EntryOf(Symbol13(code)) == Entry(code, 13)
  {
  }

  lemma Codes14(code: nat)
    requires 0x3ffc <= code < 0x3ffe
    ensures Symbol14(code) <= EOS && EntryOf(Symbol14(code)) == Entry(code, 14)
  {
  }

  lemma Codes15(code: nat)
    requires 0x7ffc <= code < 0x7fff
    ensures Symbol15(code) <= EOS && EntryOf(Symbol15(code)) == Entry(code, 15)
  {
  }

  lemma Codes19(code: nat)
    requires 0x7fff0 <= code < 0x7fff3
    ensures Symbol19(code) <= EOS && EntryOf(Symbol19(code)) == Entry(code, 19)
  {
  }

  lemma Codes20(code: nat)
    requires 0xfffe6 <= code < 0xfffee
    ensures Symbol20(code) <= EOS && EntryOf(Symbol20(code)) == Entry(code, 20)
  {
  }

  lemma Codes21Part1(code: nat)
    requires 0x1fffdc <= code < 0x1fffe3
    ensures Symbol21(code) <= EOS && EntryOf(Symbol21(code)) == Entry(code, 21)
  {
  }

  lemma Codes21Part2(code: nat)
    requires 0x1fffe3 <= code < 0x1fffe9
    ensures Symbol21(code) <= EOS && EntryOf(Symbol21(code)) == Entry(code, 21)
  {
  }

  lemma Codes21(code: nat)
    requires 0x1fffdc <= code < 0x1fffe9
    ensures Symbol21(code) <= EOS && EntryOf(Symbol21(code)) == Entry(code, 21)
  {
    if code < 0x1fffe3 { Codes21Part1(code); } else { Codes21Part2(code); }
  }

  lemma Codes22Part1(code: nat)
    requires 0x3fffd2 <= code < 0x3fffd9
    ensures Symbol22(code) <= EOS && EntryOf(Symbol22(code)) == Entry(code, 22)
  {
  }

  lemma Codes22Part2(code: nat)
    requires 0x3fffd9 <= code < 0x3fffe0
    ensures Symbol22(code) <= EOS && EntryOf(Symbol22(code)) == Entry(code, 22)
  {
  }

  lemma Codes22Part3(code: nat)
    requires 0x3fffe0 <= code < 0x3fffe7
    ensures Symbol22(code) <= EOS && EntryOf(Symbol22(code)) == Entry(code, 22)
  {
  }

  lemma Codes22Part4(code: nat)
    requires 0x3fffe7 <= code < 0x3fffec
    ensures Symbol22(code) <= EOS && EntryOf(Symbol22(code)) == Entry(code, 22)
  {
  }

  lemma Codes22(code: nat)
    requires 0x3fffd2 <= code < 0x3fffec
    ensures Symbol22(code) <= EOS && EntryOf(Symbol22(code)) == Entry(code, 22)
  {
    if code < 0x3fffd9 { Codes22Part1(code); } else if code < 0x3fffe0 { Codes22Part2(code); } else if code < 0x3fffe7 { Codes22Part3(code); } else { Codes22Part4(code); }
  }

  lemma Codes23Part1(code: nat)
    requires 0x7fffd8 <= code < 0x7fffe0
    ensures Symbol23(code) <= EOS && EntryOf(Symbol23(code)) == Entry(code, 23)
  {
  }

  lemma Codes23Part2(code: nat)
    requires 0x7fffe0 <= code < 0x7fffe8
    ensures Symbol23(code) <= EOS && EntryOf(Symbol23(code)) == Entry(code, 23)
  {
  }

  lemma Codes23Part3(code: nat)
    requires 0x7fffe8 <= code < 0x7ffff0
    ensures Symbol23(code) <= EOS && EntryOf(Symbol23(code)) == Entry(code, 23)
  {
  }

  lemma Codes23Part4(code: nat)
    requires 0x7ffff0 <= code < 0x7ffff5
    ensures Symbol23(code) <= EOS && EntryOf(Symbol23(code)) == Entry(code, 23)
  {
  }

  lemma Codes23(code: nat)
    requires 0x7fffd8 <= code < 0x7ffff5
    ensures Symbol23(code) <= EOS && EntryOf(Symbol23(code)) == Entry(code, 23)
  {
    if code < 0x7fffe0 { Codes23Part1(code); } else if code < 0x7fffe8 { Codes23Part2(code); } else if code < 0x7ffff0 { Codes23Part3(code); } else { Codes23Part4(code); }
  }

  lemma Codes24Part1(code: nat)
    requires 0xffffea <= code < 0xfffff0
    ensures Symbol24(code) <= EOS && EntryOf(Symbol24(code)) == Entry(code, 24)
  {
  }

  lemma Codes24Part2(code: nat)
    requires 0xfffff0 <= code < 0xfffff6
    ensures Symbol24(code) <= EOS && EntryOf(Symbol24(code)) == Entry(code, 24)
  {
  }

  lemma Codes24(code: nat)
    requires 0xffffea <= code < 0xfffff6
    ensures Symbol24(code) <= EOS && EntryOf(Symbol24(code)) == Entry(code, 24)
  {
    if code < 0xfffff0 { Codes24Part1(code); } else { Codes24Part2(code); }
  }

  lemma Codes25(code: nat)
    requires 0x1ffffec <= code < 0x1fffff0
    ensures Symbol25(code) <= EOS && EntryOf(Symbol25(code)) == Entry(code, 25)
  {
  }

  lemma Codes26Part1(code: nat)
    requires 0x3ffffe0 <= code < 0x3ffffe8
    ensures Symbol26(code) <= EOS && EntryOf(Symbol26(code)) == Entry(code, 26)
  {
  }

  lemma Codes26Part2(code: nat)
    requires 0x3ffffe8 <= code < 0x3ffffef
    ensures Symbol26(code) <= EOS && EntryOf(Symbol26(code)) == Entry(code, 26)
  {
  }

  lemma Codes26(code: nat)
    requires 0x3ffffe0 <= code < 0x3ffffef
    ensures Symbol26(code) <= EOS && EntryOf(Symbol26(code)) == Entry(code, 26)
  {
    if code < 0x3ffffe8 { Codes26Part1(code); } else { Codes26Part2(code); }
  }

  lemma Codes27Part1(code: nat)
    requires 0x7ffffde <= code < 0x7ffffe5
    ensures Symbol27(code) <= EOS && EntryOf(Symbol27(code)) == Entry(code, 27)
  {
  }

  lemma Codes27Part2(code: nat)
    requires 0x7ffffe5 <= code < 0x7ffffec
    ensures Symbol27(code) <= EOS && EntryOf(Symbol27(code)) == Entry(code, 27)
  {
  }

  lemma Codes27Part3(code: nat)
    requires 0x7ffffec <= code < 0x7fffff1
    ensures Symbol27(code) <= EOS && EntryOf(Symbol27(code)) == Entry(code, 27)
  {
  }

  lemma Codes27(code: nat)
    requires 0x7ffffde <= code < 0x7fffff1
    ensures Symbol27(code) <= EOS && EntryOf(Symbol27(code)) == Entry(code, 27)
  {
    if code < 0x7ffffe5 { Codes27Part1(code); } else if code < 0x7ffffec { Codes27Part2(code); } else { Codes27Part3(code); }
  }

  lemma Codes28Part1(code: nat)
    requires 0xfffffe2 <= code < 0xfffffea && code != MISSING
    ensures Symbol28(code) <= EOS && EntryOf(Symbol28(code)) == Entry(code, 28)
  {
  }

  lemma Codes28Part2(code: nat)
    requires 0xfffffea <= code < 0xffffff2
    ensures Symbol28(code) <= EOS && EntryOf(Symbol28(code)) == Entry(code, 28)
  {
  }

  lemma Codes28Part3(code: nat)
    requires 0xffffff2 <= code < 0xffffffa
    ensures Symbol28(code) <= EOS && EntryOf(Symbol28(code)) == Entry(code, 28)
  {
  }

  lemma Codes28Part4(code: nat)
    requires 0xffffffa <= code < 0xfffffff
    ensures Symbol28(code) <= EOS && EntryOf(Symbol28(code)) == Entry(code, 28)
  {
  }

  lemma Codes28(code: nat)
    requires 0xfffffe2 <= code < 0xfffffff && code != MISSING
    ensures Symbol28(code) <= EOS && EntryOf(Symbol28(code)) == Entry(code, 28)
  {
    if code < 0xfffffea { Codes28Part1(code); } else if code < 0xffffff2 { Codes28Part2(code); } else if code < 0xffffffa { Codes28Part3(code); } else { Codes28Part4(code); }
  }

  lemma Codes30(code: nat)
    requires 0x3ffffffc <= code < 0x40000000
    ensures Symbol30(code) <= EOS && EntryOf(Symbol30(code)) == Entry(code, 30)
  {
  }
}
