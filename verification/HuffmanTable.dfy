/** The code table that ships with the coder can be decoded, and its round trip holds
    exactly for the strings without byte 5, which has the code of byte 6. */
module HuffmanTable {
  import opened Basics
  import opened Bits
  import opened HuffmanCode

  // ----- the table, and the reverse table -----

  /** The codes of a length lie from `First(len)` up to but not including `Next(len)`. */
  function First(len: nat): nat {
    if len == 6 then 0x14 else if len == 7 then 0x5c else if len == 8 then 0xf8 else if len == 9 then 0x1fc else
    if len == 10 then 0x3f8 else if len == 11 then 0x7fa else if len == 12 then 0xffa else if len == 13 then 0x1ff8 else
    if len == 14 then 0x3ffc else if len == 15 then 0x7ffc else if len == 16 then 0xfffe else if len == 17 then 0x1fffc else
    if len == 18 then 0x3fff8 else if len == 19 then 0x7fff0 else if len == 20 then 0xfffe6 else if len == 21 then 0x1fffdc else
    if len == 22 then 0x3fffd2 else if len == 23 then 0x7fffd8 else if len == 24 then 0xffffea else if len == 25 then 0x1ffffec else
    if len == 26 then 0x3ffffe0 else if len == 27 then 0x7ffffde else if len == 28 then 0xfffffe2 else if len == 29 then 0x1ffffffe else
    if len == 30 then 0x3ffffffc else
    0
  }

  function Next(len: nat): nat {
    if len == 5 then 0xa else if len == 6 then 0x2e else if len == 7 then 0x7c else if len == 8 then 0xfe else
    if len == 9 then 0x1fc else if len == 10 then 0x3fd else if len == 11 then 0x7fd else if len == 12 then 0xffc else
    if len == 13 then 0x1ffe else if len == 14 then 0x3ffe else if len == 15 then 0x7fff else if len == 16 then 0xfffe else
    if len == 17 then 0x1fffc else if len == 18 then 0x3fff8 else if len == 19 then 0x7fff3 else if len == 20 then 0xfffee else
    if len == 21 then 0x1fffe9 else if len == 22 then 0x3fffec else if len == 23 then 0x7ffff5 else if len == 24 then 0xfffff6 else
    if len == 25 then 0x1fffff0 else if len == 26 then 0x3ffffef else if len == 27 then 0x7fffff1 else if len == 28 then 0xfffffff else
    if len == 29 then 0x1ffffffe else if len == 30 then 0x40000000 else
    0
  }

  /** The symbol that a code of the table stands for. */
  function SymbolOf(len: nat, code: nat): nat {
    if len == 5 then Symbol5(code) else if len == 6 then Symbol6(code) else if len == 7 then Symbol7(code) else
    if len == 8 then Symbol8(code) else if len == 10 then Symbol10(code) else if len == 11 then Symbol11(code) else
    if len == 12 then Symbol12(code) else if len == 13 then Symbol13(code) else if len == 14 then Symbol14(code) else
    if len == 15 then Symbol15(code) else if len == 19 then Symbol19(code) else if len == 20 then Symbol20(code) else
    if len == 21 then Symbol21(code) else if len == 22 then Symbol22(code) else if len == 23 then Symbol23(code) else
    if len == 24 then Symbol24(code) else if len == 25 then Symbol25(code) else if len == 26 then Symbol26(code) else
    if len == 27 then Symbol27(code) else if len == 28 then Symbol28(code) else if len == 30 then Symbol30(code) else
    0
  }

  function Symbol5(code: nat): nat {
    if code == 0x0 then 48 else if code == 0x1 then 49 else if code == 0x2 then 50 else if code == 0x3 then 97 else
    if code == 0x4 then 99 else if code == 0x5 then 101 else if code == 0x6 then 105 else if code == 0x7 then 111 else
    if code == 0x8 then 115 else
    116
  }

  function Symbol6Part1(code: nat): nat {
    if code == 0x14 then 32 else if code == 0x15 then 37 else if code == 0x16 then 45 else if code == 0x17 then 46 else
    if code == 0x18 then 47 else if code == 0x19 then 51 else
    52
  }

  function Symbol6Part2(code: nat): nat {
    if code == 0x1b then 53 else if code == 0x1c then 54 else if code == 0x1d then 55 else if code == 0x1e then 56 else
    if code == 0x1f then 57 else if code == 0x20 then 61 else
    65
  }

  function Symbol6Part3(code: nat): nat {
    if code == 0x22 then 95 else if code == 0x23 then 98 else if code == 0x24 then 100 else if code == 0x25 then 102 else
    if code == 0x26 then 103 else if code == 0x27 then 104 else
    108
  }

  function Symbol6Part4(code: nat): nat {
    if code == 0x29 then 109 else if code == 0x2a then 110 else if code == 0x2b then 112 else if code == 0x2c then 114 else
    117
  }

  function Symbol6(code: nat): nat {
    if code < 0x1b then Symbol6Part1(code) else if code < 0x22 then Symbol6Part2(code) else if code < 0x29 then Symbol6Part3(code) else Symbol6Part4(code)
  }

  function Symbol7Part1(code: nat): nat {
    if code == 0x5c then 58 else if code == 0x5d then 66 else if code == 0x5e then 67 else if code == 0x5f then 68 else
    if code == 0x60 then 69 else if code == 0x61 then 70 else if code == 0x62 then 71 else
    72
  }

  function Symbol7Part2(code: nat): nat {
    if code == 0x64 then 73 else if code == 0x65 then 74 else if code == 0x66 then 75 else if code == 0x67 then 76 else
    if code == 0x68 then 77 else if code == 0x69 then 78 else if code == 0x6a then 79 else
    80
  }

  function Symbol7Part3(code: nat): nat {
    if code == 0x6c then 81 else if code == 0x6d then 82 else if code == 0x6e then 83 else if code == 0x6f then 84 else
    if code == 0x70 then 85 else if code == 0x71 then 86 else if code == 0x72 then 87 else
    89
  }

  function Symbol7Part4(code: nat): nat {
    if code == 0x74 then 106 else if code == 0x75 then 107 else if code == 0x76 then 113 else if code == 0x77 then 118 else
    if code == 0x78 then 119 else if code == 0x79 then 120 else if code == 0x7a then 121 else
    122
  }

  function Symbol7(code: nat): nat {
    if code < 0x64 then Symbol7Part1(code) else if code < 0x6c then Symbol7Part2(code) else if code < 0x74 then Symbol7Part3(code) else Symbol7Part4(code)
  }

  function Symbol8(code: nat): nat {
    if code == 0xf8 then 38 else if code == 0xf9 then 42 else if code == 0xfa then 44 else if code == 0xfb then 59 else
    if code == 0xfc then 88 else
    90
  }

  function Symbol10(code: nat): nat {
    if code == 0x3f8 then 33 else if code == 0x3f9 then 34 else if code == 0x3fa then 40 else if code == 0x3fb then 41 else
    63
  }

  function Symbol11(code: nat): nat {
    if code == 0x7fa then 39 else if code == 0x7fb then 43 else
    124
  }

  function Symbol12(code: nat): nat {
    if code == 0xffa then 35 else
    62
  }

  function Symbol13(code: nat): nat {
    if code == 0x1ff8 then 0 else if code == 0x1ff9 then 36 else if code == 0x1ffa then 64 else if code == 0x1ffb then 91 else
    if code == 0x1ffc then 93 else
    126
  }

  function Symbol14(code: nat): nat {
    if code == 0x3ffc then 94 else
    125
  }

  function Symbol15(code: nat): nat {
    if code == 0x7ffc then 60 else if code == 0x7ffd then 96 else
    123
  }

  function Symbol19(code: nat): nat {
    if code == 0x7fff0 then 92 else if code == 0x7fff1 then 195 else
    208
  }

  function Symbol20(code: nat): nat {
    if code == 0xfffe6 then 128 else if code == 0xfffe7 then 130 else if code == 0xfffe8 then 131 else if code == 0xfffe9 then 162 else
    if code == 0xfffea then 184 else if code == 0xfffeb then 194 else if code == 0xfffec then 224 else
    226
  }

  function Symbol21Part1(code: nat): nat {
    if code == 0x1fffdc then 153 else if code == 0x1fffdd then 161 else if code == 0x1fffde then 167 else if code == 0x1fffdf then 172 else
    if code == 0x1fffe0 then 176 else if code == 0x1fffe1 then 177 else
    179
  }

  function Symbol21Part2(code: nat): nat {
    if code == 0x1fffe3 then 209 else if code == 0x1fffe4 then 216 else if code == 0x1fffe5 then 217 else if code == 0x1fffe6 then 227 else
    if code == 0x1fffe7 then 229 else
    230
  }

  function Symbol21(code: nat): nat {
    if code < 0x1fffe3 then Symbol21Part1(code) else Symbol21Part2(code)
  }

  function Symbol22Part1(code: nat): nat {
    if code == 0x3fffd2 then 129 else if code == 0x3fffd3 then 132 else if code == 0x3fffd4 then 133 else if code == 0x3fffd5 then 134 else
    if code == 0x3fffd6 then 136 else if code == 0x3fffd7 then 146 else
    154
  }

  function Symbol22Part2(code: nat): nat {
    if code == 0x3fffd9 then 156 else if code == 0x3fffda then 160 else if code == 0x3fffdb then 163 else if code == 0x3fffdc then 164 else
    if code == 0x3fffdd then 169 else if code == 0x3fffde then 170 else
    173
  }

  function Symbol22Part3(code: nat): nat {
    if code == 0x3fffe0 then 178 else if code == 0x3fffe1 then 181 else if code == 0x3fffe2 then 185 else if code == 0x3fffe3 then 186 else
    if code == 0x3fffe4 then 187 else if code == 0x3fffe5 then 189 else
    190
  }

  function Symbol22Part4(code: nat): nat {
    if code == 0x3fffe7 then 196 else if code == 0x3fffe8 then 198 else if code == 0x3fffe9 then 228 else if code == 0x3fffea then 232 else
    233
  }

  function Symbol22(code: nat): nat {
    if code < 0x3fffd9 then Symbol22Part1(code) else if code < 0x3fffe0 then Symbol22Part2(code) else if code < 0x3fffe7 then Symbol22Part3(code) else Symbol22Part4(code)
  }

  function Symbol23Part1(code: nat): nat {
    if code == 0x7fffd8 then 1 else if code == 0x7fffd9 then 135 else if code == 0x7fffda then 137 else if code == 0x7fffdb then 138 else
    if code == 0x7fffdc then 139 else if code == 0x7fffdd then 140 else if code == 0x7fffde then 141 else
    143
  }

  function Symbol23Part2(code: nat): nat {
    if code == 0x7fffe0 then 147 else if code == 0x7fffe1 then 149 else if code == 0x7fffe2 then 150 else if code == 0x7fffe3 then 151 else
    if code == 0x7fffe4 then 152 else if code == 0x7fffe5 then 155 else if code == 0x7fffe6 then 157 else
    158
  }

  function Symbol23Part3(code: nat): nat {
    if code == 0x7fffe8 then 165 else if code == 0x7fffe9 then 166 else if code == 0x7fffea then 168 else if code == 0x7fffeb then 174 else
    if code == 0x7fffec then 175 else if code == 0x7fffed then 180 else if code == 0x7fffee then 182 else
    183
  }

  function Symbol23Part4(code: nat): nat {
    if code == 0x7ffff0 then 188 else if code == 0x7ffff1 then 191 else if code == 0x7ffff2 then 197 else if code == 0x7ffff3 then 231 else
    239
  }

  function Symbol23(code: nat): nat {
    if code < 0x7fffe0 then Symbol23Part1(code) else if code < 0x7fffe8 then Symbol23Part2(code) else if code < 0x7ffff0 then Symbol23Part3(code) else Symbol23Part4(code)
  }

  function Symbol24Part1(code: nat): nat {
    if code == 0xffffea then 9 else if code == 0xffffeb then 142 else if code == 0xffffec then 144 else if code == 0xffffed then 145 else
    if code == 0xffffee then 148 else
    159
  }

  function Symbol24Part2(code: nat): nat {
    if code == 0xfffff0 then 171 else if code == 0xfffff1 then 206 else if code == 0xfffff2 then 215 else if code == 0xfffff3 then 225 else
    if code == 0xfffff4 then 236 else
    237
  }

  function Symbol24(code: nat): nat {
    if code < 0xfffff0 then Symbol24Part1(code) else Symbol24Part2(code)
  }

  function Symbol25(code: nat): nat {
    if code == 0x1ffffec then 199 else if code == 0x1ffffed then 207 else if code == 0x1ffffee then 234 else
    235
  }

  function Symbol26Part1(code: nat): nat {
    if code == 0x3ffffe0 then 192 else if code == 0x3ffffe1 then 193 else if code == 0x3ffffe2 then 200 else if code == 0x3ffffe3 then 201 else
    if code == 0x3ffffe4 then 202 else if code == 0x3ffffe5 then 205 else if code == 0x3ffffe6 then 210 else
    213
  }

  function Symbol26Part2(code: nat): nat {
    if code == 0x3ffffe8 then 218 else if code == 0x3ffffe9 then 219 else if code == 0x3ffffea then 238 else if code == 0x3ffffeb then 240 else
    if code == 0x3ffffec then 242 else if code == 0x3ffffed then 243 else
    255
  }

  function Symbol26(code: nat): nat {
    if code < 0x3ffffe8 then Symbol26Part1(code) else Symbol26Part2(code)
  }

  function Symbol27Part1(code: nat): nat {
    if code == 0x7ffffde then 203 else if code == 0x7ffffdf then 204 else if code == 0x7ffffe0 then 211 else if code == 0x7ffffe1 then 212 else
    if code == 0x7ffffe2 then 214 else if code == 0x7ffffe3 then 221 else
    222
  }

  function Symbol27Part2(code: nat): nat {
    if code == 0x7ffffe5 then 223 else if code == 0x7ffffe6 then 241 else if code == 0x7ffffe7 then 244 else if code == 0x7ffffe8 then 245 else
    if code == 0x7ffffe9 then 246 else if code == 0x7ffffea then 247 else
    248
  }

  function Symbol27Part3(code: nat): nat {
    if code == 0x7ffffec then 250 else if code == 0x7ffffed then 251 else if code == 0x7ffffee then 252 else if code == 0x7ffffef then 253 else
    254
  }

  function Symbol27(code: nat): nat {
    if code < 0x7ffffe5 then Symbol27Part1(code) else if code < 0x7ffffec then Symbol27Part2(code) else Symbol27Part3(code)
  }

  function Symbol28Part1(code: nat): nat {
    if code == 0xfffffe2 then 2 else if code == 0xfffffe3 then 3 else if code == 0xfffffe4 then 4 else if code == 0xfffffe5 then 6 else
    if code == 0xfffffe7 then 7 else if code == 0xfffffe8 then 8 else
    11
  }

  function Symbol28Part2(code: nat): nat {
    if code == 0xfffffea then 12 else if code == 0xfffffeb then 14 else if code == 0xfffffec then 15 else if code == 0xfffffed then 16 else
    if code == 0xfffffee then 17 else if code == 0xfffffef then 18 else if code == 0xffffff0 then 19 else
    20
  }

  function Symbol28Part3(code: nat): nat {
    if code == 0xffffff2 then 21 else if code == 0xffffff3 then 23 else if code == 0xffffff4 then 24 else if code == 0xffffff5 then 25 else
    if code == 0xffffff6 then 26 else if code == 0xffffff7 then 27 else if code == 0xffffff8 then 28 else
    29
  }

  function Symbol28Part4(code: nat): nat {
    if code == 0xffffffa then 30 else if code == 0xffffffb then 31 else if code == 0xffffffc then 127 else if code == 0xffffffd then 220 else
    249
  }

  function Symbol28(code: nat): nat {
    if code < 0xfffffea then Symbol28Part1(code) else if code < 0xffffff2 then Symbol28Part2(code) else if code < 0xffffffa then Symbol28Part3(code) else Symbol28Part4(code)
  }

  function Symbol30(code: nat): nat {
    if code == 0x3ffffffc then 10 else if code == 0x3ffffffd then 13 else if code == 0x3ffffffe then 22 else
    256
  }

  /** Byte 5 shares its code with byte 6. */
  function Representative(symbol: nat): nat {
    if symbol == 5 then 6 else symbol
  }

  predicate Placed(s: nat, e: Entry) {
    && 5 <= e.codeLen <= 30
    && First(e.codeLen) <= e.code < Next(e.codeLen)
    && SymbolOf(e.codeLen, e.code) == Representative(s)
  }

  function Block0(s: nat): (e: Entry)
    requires 0 <= s < 16
    ensures Placed(s, e)
  {
    if s == 0 then Entry(0x1ff8, 13) else if s == 1 then Entry(0x7fffd8, 23) else
    if s == 2 then Entry(0xfffffe2, 28) else if s == 3 then Entry(0xfffffe3, 28) else
    if s == 4 then Entry(0xfffffe4, 28) else if s == 5 then Entry(0xfffffe5, 28) else
    if s == 6 then Entry(0xfffffe5, 28) else if s == 7 then Entry(0xfffffe7, 28) else
    if s == 8 then Entry(0xfffffe8, 28) else if s == 9 then Entry(0xffffea, 24) else
    if s == 10 then Entry(0x3ffffffc, 30) else if s == 11 then Entry(0xfffffe9, 28) else
    if s == 12 then Entry(0xfffffea, 28) else if s == 13 then Entry(0x3ffffffd, 30) else
    if s == 14 then Entry(0xfffffeb, 28) else Entry(0xfffffec, 28)
  }

  function Block1(s: nat): (e: Entry)
    requires 16 <= s < 32
    ensures Placed(s, e)
  {
    if s == 16 then Entry(0xfffffed, 28) else if s == 17 then Entry(0xfffffee, 28) else
    if s == 18 then Entry(0xfffffef, 28) else if s == 19 then Entry(0xffffff0, 28) else
    if s == 20 then Entry(0xffffff1, 28) else if s == 21 then Entry(0xffffff2, 28) else
    if s == 22 then Entry(0x3ffffffe, 30) else if s == 23 then Entry(0xffffff3, 28) else
    if s == 24 then Entry(0xffffff4, 28) else if s == 25 then Entry(0xffffff5, 28) else
    if s == 26 then Entry(0xffffff6, 28) else if s == 27 then Entry(0xffffff7, 28) else
    if s == 28 then Entry(0xffffff8, 28) else if s == 29 then Entry(0xffffff9, 28) else
    if s == 30 then Entry(0xffffffa, 28) else Entry(0xffffffb, 28)
  }

  function Block2(s: nat): (e: Entry)
    requires 32 <= s < 48
    ensures Placed(s, e)
  {
    if s == 32 then Entry(0x14, 6) else if s == 33 then Entry(0x3f8, 10) else
    if s == 34 then Entry(0x3f9, 10) else if s == 35 then Entry(0xffa, 12) else
    if s == 36 then Entry(0x1ff9, 13) else if s == 37 then Entry(0x15, 6) else
    if s == 38 then Entry(0xf8, 8) else if s == 39 then Entry(0x7fa, 11) else
    if s == 40 then Entry(0x3fa, 10) else if s == 41 then Entry(0x3fb, 10) else
    if s == 42 then Entry(0xf9, 8) else if s == 43 then Entry(0x7fb, 11) else
    if s == 44 then Entry(0xfa, 8) else if s == 45 then Entry(0x16, 6) else
    if s == 46 then Entry(0x17, 6) else Entry(0x18, 6)
  }

  function Block3(s: nat): (e: Entry)
    requires 48 <= s < 64
    ensures Placed(s, e)
  {
    if s == 48 then Entry(0x0, 5) else if s == 49 then Entry(0x1, 5) else
    if s == 50 then Entry(0x2, 5) else if s == 51 then Entry(0x19, 6) else
    if s == 52 then Entry(0x1a, 6) else if s == 53 then Entry(0x1b, 6) else
    if s == 54 then Entry(0x1c, 6) else if s == 55 then Entry(0x1d, 6) else
    if s == 56 then Entry(0x1e, 6) else if s == 57 then Entry(0x1f, 6) else
    if s == 58 then Entry(0x5c, 7) else if s == 59 then Entry(0xfb, 8) else
    if s == 60 then Entry(0x7ffc, 15) else if s == 61 then Entry(0x20, 6) else
    if s == 62 then Entry(0xffb, 12) else Entry(0x3fc, 10)
  }

  function Block4(s: nat): (e: Entry)
    requires 64 <= s < 80
    ensures Placed(s, e)
  {
    if s == 64 then Entry(0x1ffa, 13) else if s == 65 then Entry(0x21, 6) else
    if s == 66 then Entry(0x5d, 7) else if s == 67 then Entry(0x5e, 7) else
    if s == 68 then Entry(0x5f, 7) else if s == 69 then Entry(0x60, 7) else
    if s == 70 then Entry(0x61, 7) else if s == 71 then Entry(0x62, 7) else
    if s == 72 then Entry(0x63, 7) else if s == 73 then Entry(0x64, 7) else
    if s == 74 then Entry(0x65, 7) else if s == 75 then Entry(0x66, 7) else
    if s == 76 then Entry(0x67, 7) else if s == 77 then Entry(0x68, 7) else
    if s == 78 then Entry(0x69, 7) else Entry(0x6a, 7)
  }

  function Block5(s: nat): (e: Entry)
    requires 80 <= s < 96
    ensures Placed(s, e)
  {
    if s == 80 then Entry(0x6b, 7) else if s == 81 then Entry(0x6c, 7) else
    if s == 82 then Entry(0x6d, 7) else if s == 83 then Entry(0x6e, 7) else
    if s == 84 then Entry(0x6f, 7) else if s == 85 then Entry(0x70, 7) else
    if s == 86 then Entry(0x71, 7) else if s == 87 then Entry(0x72, 7) else
    if s == 88 then Entry(0xfc, 8) else if s == 89 then Entry(0x73, 7) else
    if s == 90 then Entry(0xfd, 8) else if s == 91 then Entry(0x1ffb, 13) else
    if s == 92 then Entry(0x7fff0, 19) else if s == 93 then Entry(0x1ffc, 13) else
    if s == 94 then Entry(0x3ffc, 14) else Entry(0x22, 6)
  }

  function Block6(s: nat): (e: Entry)
    requires 96 <= s < 112
    ensures Placed(s, e)
  {
    if s == 96 then Entry(0x7ffd, 15) else if s == 97 then Entry(0x3, 5) else
    if s == 98 then Entry(0x23, 6) else if s == 99 then Entry(0x4, 5) else
    if s == 100 then Entry(0x24, 6) else if s == 101 then Entry(0x5, 5) else
    if s == 102 then Entry(0x25, 6) else if s == 103 then Entry(0x26, 6) else
    if s == 104 then Entry(0x27, 6) else if s == 105 then Entry(0x6, 5) else
    if s == 106 then Entry(0x74, 7) else if s == 107 then Entry(0x75, 7) else
    if s == 108 then Entry(0x28, 6) else if s == 109 then Entry(0x29, 6) else
    if s == 110 then Entry(0x2a, 6) else Entry(0x7, 5)
  }

  function Block7(s: nat): (e: Entry)
    requires 112 <= s < 128
    ensures Placed(s, e)
  {
    if s == 112 then Entry(0x2b, 6) else if s == 113 then Entry(0x76, 7) else
    if s == 114 then Entry(0x2c, 6) else if s == 115 then Entry(0x8, 5) else
    if s == 116 then Entry(0x9, 5) else if s == 117 then Entry(0x2d, 6) else
    if s == 118 then Entry(0x77, 7) else if s == 119 then Entry(0x78, 7) else
    if s == 120 then Entry(0x79, 7) else if s == 121 then Entry(0x7a, 7) else
    if s == 122 then Entry(0x7b, 7) else if s == 123 then Entry(0x7ffe, 15) else
    if s == 124 then Entry(0x7fc, 11) else if s == 125 then Entry(0x3ffd, 14) else
    if s == 126 then Entry(0x1ffd, 13) else Entry(0xffffffc, 28)
  }

  function Block8(s: nat): (e: Entry)
    requires 128 <= s < 144
    ensures Placed(s, e)
  {
    if s == 128 then Entry(0xfffe6, 20) else if s == 129 then Entry(0x3fffd2, 22) else
    if s == 130 then Entry(0xfffe7, 20) else if s == 131 then Entry(0xfffe8, 20) else
    if s == 132 then Entry(0x3fffd3, 22) else if s == 133 then Entry(0x3fffd4, 22) else
    if s == 134 then Entry(0x3fffd5, 22) else if s == 135 then Entry(0x7fffd9, 23) else
    if s == 136 then Entry(0x3fffd6, 22) else if s == 137 then Entry(0x7fffda, 23) else
    if s == 138 then Entry(0x7fffdb, 23) else if s == 139 then Entry(0x7fffdc, 23) else
    if s == 140 then Entry(0x7fffdd, 23) else if s == 141 then Entry(0x7fffde, 23) else
    if s == 142 then Entry(0xffffeb, 24) else Entry(0x7fffdf, 23)
  }

  function Block9(s: nat): (e: Entry)
    requires 144 <= s < 160
    ensures Placed(s, e)
  {
    if s == 144 then Entry(0xffffec, 24) else if s == 145 then Entry(0xffffed, 24) else
    if s == 146 then Entry(0x3fffd7, 22) else if s == 147 then Entry(0x7fffe0, 23) else
    if s == 148 then Entry(0xffffee, 24) else if s == 149 then Entry(0x7fffe1, 23) else
    if s == 150 then Entry(0x7fffe2, 23) else if s == 151 then Entry(0x7fffe3, 23) else
    if s == 152 then Entry(0x7fffe4, 23) else if s == 153 then Entry(0x1fffdc, 21) else
    if s == 154 then Entry(0x3fffd8, 22) else if s == 155 then Entry(0x7fffe5, 23) else
    if s == 156 then Entry(0x3fffd9, 22) else if s == 157 then Entry(0x7fffe6, 23) else
    if s == 158 then Entry(0x7fffe7, 23) else Entry(0xffffef, 24)
  }

  function Block10(s: nat): (e: Entry)
    requires 160 <= s < 176
    ensures Placed(s, e)
  {
    if s == 160 then Entry(0x3fffda, 22) else if s == 161 then Entry(0x1fffdd, 21) else
    if s == 162 then Entry(0xfffe9, 20) else if s == 163 then Entry(0x3fffdb, 22) else
    if s == 164 then Entry(0x3fffdc, 22) else if s == 165 then Entry(0x7fffe8, 23) else
    if s == 166 then Entry(0x7fffe9, 23) else if s == 167 then Entry(0x1fffde, 21) else
    if s == 168 then Entry(0x7fffea, 23) else if s == 169 then Entry(0x3fffdd, 22) else
    if s == 170 then Entry(0x3fffde, 22) else if s == 171 then Entry(0xfffff0, 24) else
    if s == 172 then Entry(0x1fffdf, 21) else if s == 173 then Entry(0x3fffdf, 22) else
    if s == 174 then Entry(0x7fffeb, 23) else Entry(0x7fffec, 23)
  }

  function Block11(s: nat): (e: Entry)
    requires 176 <= s < 192
    ensures Placed(s, e)
  {
    if s == 176 then Entry(0x1fffe0, 21) else if s == 177 then Entry(0x1fffe1, 21) else
    if s == 178 then Entry(0x3fffe0, 22) else if s == 179 then Entry(0x1fffe2, 21) else
    if s == 180 then Entry(0x7fffed, 23) else if s == 181 then Entry(0x3fffe1, 22) else
    if s == 182 then Entry(0x7fffee, 23) else if s == 183 then Entry(0x7fffef, 23) else
    if s == 184 then Entry(0xfffea, 20) else if s == 185 then Entry(0x3fffe2, 22) else
    if s == 186 then Entry(0x3fffe3, 22) else if s == 187 then Entry(0x3fffe4, 22) else
    if s == 188 then Entry(0x7ffff0, 23) else if s == 189 then Entry(0x3fffe5, 22) else
    if s == 190 then Entry(0x3fffe6, 22) else Entry(0x7ffff1, 23)
  }

  function Block12(s: nat): (e: Entry)
    requires 192 <= s < 208
    ensures Placed(s, e)
  {
    if s == 192 then Entry(0x3ffffe0, 26) else if s == 193 then Entry(0x3ffffe1, 26) else
    if s == 194 then Entry(0xfffeb, 20) else if s == 195 then Entry(0x7fff1, 19) else
    if s == 196 then Entry(0x3fffe7, 22) else if s == 197 then Entry(0x7ffff2, 23) else
    if s == 198 then Entry(0x3fffe8, 22) else if s == 199 then Entry(0x1ffffec, 25) else
    if s == 200 then Entry(0x3ffffe2, 26) else if s == 201 then Entry(0x3ffffe3, 26) else
    if s == 202 then Entry(0x3ffffe4, 26) else if s == 203 then Entry(0x7ffffde, 27) else
    if s == 204 then Entry(0x7ffffdf, 27) else if s == 205 then Entry(0x3ffffe5, 26) else
    if s == 206 then Entry(0xfffff1, 24) else Entry(0x1ffffed, 25)
  }

  function Block13(s: nat): (e: Entry)
    requires 208 <= s < 224
    ensures Placed(s, e)
  {
    if s == 208 then Entry(0x7fff2, 19) else if s == 209 then Entry(0x1fffe3, 21) else
    if s == 210 then Entry(0x3ffffe6, 26) else if s == 211 then Entry(0x7ffffe0, 27) else
    if s == 212 then Entry(0x7ffffe1, 27) else if s == 213 then Entry(0x3ffffe7, 26) else
    if s == 214 then Entry(0x7ffffe2, 27) else if s == 215 then Entry(0xfffff2, 24) else
    if s == 216 then Entry(0x1fffe4, 21) else if s == 217 then Entry(0x1fffe5, 21) else
    if s == 218 then Entry(0x3ffffe8, 26) else if s == 219 then Entry(0x3ffffe9, 26) else
    if s == 220 then Entry(0xffffffd, 28) else if s == 221 then Entry(0x7ffffe3, 27) else
    if s == 222 then Entry(0x7ffffe4, 27) else Entry(0x7ffffe5, 27)
  }

  function Block14(s: nat): (e: Entry)
    requires 224 <= s < 240
    ensures Placed(s, e)
  {
    if s == 224 then Entry(0xfffec, 20) else if s == 225 then Entry(0xfffff3, 24) else
    if s == 226 then Entry(0xfffed, 20) else if s == 227 then Entry(0x1fffe6, 21) else
    if s == 228 then Entry(0x3fffe9, 22) else if s == 229 then Entry(0x1fffe7, 21) else
    if s == 230 then Entry(0x1fffe8, 21) else if s == 231 then Entry(0x7ffff3, 23) else
    if s == 232 then Entry(0x3fffea, 22) else if s == 233 then Entry(0x3fffeb, 22) else
    if s == 234 then Entry(0x1ffffee, 25) else if s == 235 then Entry(0x1ffffef, 25) else
    if s == 236 then Entry(0xfffff4, 24) else if s == 237 then Entry(0xfffff5, 24) else
    if s == 238 then Entry(0x3ffffea, 26) else Entry(0x7ffff4, 23)
  }

  function Block15(s: nat): (e: Entry)
    requires 240 <= s < 256
    ensures Placed(s, e)
  {
    if s == 240 then Entry(0x3ffffeb, 26) else if s == 241 then Entry(0x7ffffe6, 27) else
    if s == 242 then Entry(0x3ffffec, 26) else if s == 243 then Entry(0x3ffffed, 26) else
    if s == 244 then Entry(0x7ffffe7, 27) else if s == 245 then Entry(0x7ffffe8, 27) else
    if s == 246 then Entry(0x7ffffe9, 27) else if s == 247 then Entry(0x7ffffea, 27) else
    if s == 248 then Entry(0x7ffffeb, 27) else if s == 249 then Entry(0xffffffe, 28) else
    if s == 250 then Entry(0x7ffffec, 27) else if s == 251 then Entry(0x7ffffed, 27) else
    if s == 252 then Entry(0x7ffffee, 27) else if s == 253 then Entry(0x7ffffef, 27) else
    if s == 254 then Entry(0x7fffff0, 27) else Entry(0x3ffffee, 26)
  }

  /** `static_huffman` */
  function EntryOf(s: nat): (e: Entry)
    requires s <= EOS
    ensures Placed(s, e)
  {
    if s < 16 then Block0(s) else if s < 32 then Block1(s) else
    if s < 48 then Block2(s) else if s < 64 then Block3(s) else
    if s < 80 then Block4(s) else if s < 96 then Block5(s) else
    if s < 112 then Block6(s) else if s < 128 then Block7(s) else
    if s < 144 then Block8(s) else if s < 160 then Block9(s) else
    if s < 176 then Block10(s) else if s < 192 then Block11(s) else
    if s < 208 then Block12(s) else if s < 224 then Block13(s) else
    if s < 240 then Block14(s) else if s < 256 then Block15(s) else
    Entry(0x3fffffff, 30)
  }

  const SHIPPED: Table := seq(257, s requires 0 <= s <= EOS => EntryOf(s))

  // ----- the table can be decoded -----

  /** The codes of one length end where those of the next begin. */
  lemma Adjacent(len: nat)
    requires 5 <= len < 30
    ensures First(len + 1) == 2 * Next(len) && First(len) <= Next(len)
  {
  }

  lemma {:induction false} LaterCodes(len: nat, more: nat)
    requires 5 <= len && 1 <= more && len + more <= 30
    ensures First(len + more) >= Shl(Next(len), more)
    decreases more
  {
    Adjacent(len + more - 1);
    if more == 1 {
    } else {
      LaterCodes(len, more - 1);
    }
  }

  lemma {:induction false} ShrOrder(x: nat, y: nat, k: nat)
    requires x >= Shl(y, k)
    ensures Shr(x, k) >= y
    decreases k
  {
    if k == 0 {
    } else {
      ShrOrder(x / 2, y, k - 1);
    }
  }

  lemma {:induction false} NextFits(len: nat)
    requires 5 <= len <= 30
    ensures Next(len) <= Pow2(len)
    decreases 30 - len
  {
    if len == 30 {
      Pow2Of30();
    } else {
      NextFits(len + 1);
      Adjacent(len);
      Grows(len + 1);
    }
  }

  lemma Grows(len: nat)
    requires 5 <= len <= 30
    ensures First(len) <= Next(len)
  {
  }

  lemma Pow2Of30()
    ensures Pow2(30) == 0x4000_0000
  {
    Pow2Step(22); Pow2Step(14); Pow2Step(6);
    assert Pow2(6) == 2 * Pow2(5) == 4 * Pow2(4) == 8 * Pow2(3);
    assert Pow2(3) == 2 * Pow2(2) == 4 * Pow2(1) == 8 * Pow2(0);
  }

  lemma {:induction false} SameBits(x: nat, y: nat, len: nat)
    requires x < Pow2(len) && y < Pow2(len) && BitsOf(x, len) == BitsOf(y, len)
    ensures x == y
  {
    if len == 0 {
    } else {
      assert BitsOf(x, len)[..len - 1] == BitsOf(x / 2, len - 1) && BitsOf(y, len)[..len - 1] == BitsOf(y / 2, len - 1);
      assert BitsOf(x, len)[len - 1] == BitsOf(y, len)[len - 1];
      SameBits(x / 2, y / 2, len - 1);
    }
  }

  lemma {:induction false} ShrFits(x: nat, i: nat, k: nat)
    requires x < Pow2(i + k)
    ensures Shr(x, k) < Pow2(i)
    decreases k
  {
    if k == 0 {
    } else {
      ShrFits(x / 2, i, k - 1);
    }
  }

  lemma CodeFits(s: nat)
    requires s <= EOS
    ensures 5 <= SHIPPED[s].codeLen <= 30 && SHIPPED[s].code < Pow2(SHIPPED[s].codeLen)
    ensures Placed(s, SHIPPED[s])
  {
    var e := EntryOf(s);
    NextFits(e.codeLen);
  }

  lemma NotLonger(x: Entry, y: Entry, more: nat)
    requires 5 <= x.codeLen && 1 <= more && y.codeLen == x.codeLen + more && y.codeLen <= 30
    requires x.code < Next(x.codeLen) && First(y.codeLen) <= y.code
    ensures Shr(y.code, more) != x.code
  {
    LaterCodes(x.codeLen, more);
    ShrOrder(y.code, Next(x.codeLen), more);
  }

  lemma SamePrefix(x: Entry, y: Entry, more: nat)
    requires x.code < Pow2(x.codeLen) && y.code < Pow2(y.codeLen) && y.codeLen == x.codeLen + more
    requires BitsOf(x.code, x.codeLen) <= BitsOf(y.code, y.codeLen)
    ensures Shr(y.code, more) == x.code
  {
    CutBits(y.code, x.codeLen, more);
    ShrFits(y.code, x.codeLen, more);
    assert BitsOf(Shr(y.code, more), x.codeLen) == BitsOf(y.code, y.codeLen)[..x.codeLen];
    SameBits(Shr(y.code, more), x.code, x.codeLen);
  }

  /** A code that starts another one is the same code. */
  lemma NoShorterPrefix(a: nat, b: nat)
    requires a <= EOS && b <= EOS && Code(SHIPPED, a) <= Code(SHIPPED, b)
    ensures SHIPPED[a] == SHIPPED[b]
  {
    var x, y := SHIPPED[a], SHIPPED[b];
    CodeFits(a);
    CodeFits(b);
    var more := y.codeLen - x.codeLen;
    SamePrefix(x, y, more);
    if more > 0 {
      NotLonger(x, y, more);
    }
  }

  lemma FiveAndSix()
    ensures Code(SHIPPED, 5) == Code(SHIPPED, 6)
  {
    assert SHIPPED[5] == SHIPPED[6];
  }

  lemma SameRepresentative(a: nat, b: nat)
    requires a <= EOS && b <= EOS && Code(SHIPPED, a) == Code(SHIPPED, b)
    ensures Representative(a) == Representative(b)
  {
    NoShorterPrefix(a, b);
    CodeFits(a);
    CodeFits(b);
  }

  /** Every byte decodes to itself, except 5, which decodes to 6. */
  lemma ShippedDecodes(s: nat)
    requires s <= EOS
    ensures Decoded(SHIPPED, s) == Representative(s)
  {
    var r := Decoded(SHIPPED, s);
    SameRepresentative(s, r);
    FiveAndSix();
  }

  lemma EosIsOnes()
    ensures SHIPPED[EOS] == Entry(0x3fffffff, 30) && Code(SHIPPED, EOS) == Ones(30)
  {
    Pow2Of30();
    OnesOf(30);
  }

  lemma ShippedDecodable()
    ensures Decodable(SHIPPED)
  {
    EosIsOnes();
    forall s | 0 <= s <= EOS
      ensures 1 <= SHIPPED[s].codeLen <= 32 && SHIPPED[s].code < Pow2(SHIPPED[s].codeLen)
      ensures s < EOS ==> Decoded(SHIPPED, s) != EOS
    {
      CodeFits(s);
      ShippedDecodes(s);
    }
    forall a, b | 0 <= a <= EOS && 0 <= b <= EOS ensures NotProperPrefix(SHIPPED, a, b) {
      if Code(SHIPPED, a) <= Code(SHIPPED, b) {
        NoShorterPrefix(a, b);
      }
    }
  }

  /** Decoding a packing made with the shipped table gives the string back if and only if
      it does not contain byte 5. */
  lemma ShippedRoundTripIff(bytes: seq<Byte>, value: seq<Byte>)
    requires Packs(SHIPPED, bytes, value)
    ensures Walk(SHIPPED, AllBits(bytes), []) == Some(value) <==> 5 !in value
  {
    ShippedDecodable();
    DecodesPacking(SHIPPED, bytes, value);
    forall i | 0 <= i < |value| ensures DecodedAll(SHIPPED, value)[i] == Representative(value[i]) {
      ShippedDecodes(value[i]);
    }
    if 5 in value {
      var i :| 0 <= i < |value| && value[i] == 5;
      assert DecodedAll(SHIPPED, value)[i] != value[i];
    } else {
      assert DecodedAll(SHIPPED, value) == value;
    }
  }

  lemma EncodedThree(t: Table, v: seq<Byte>)
    requires |v| == 3
    ensures Encoded(t, v) == Code(t, v[0]) + Code(t, v[1]) + Code(t, v[2])
  {
    var two := v[..2];
    var one := two[..1];
    assert one[..0] == [] && Encoded(t, one) == Code(t, v[0]);
    assert Encoded(t, two) == Encoded(t, one) + Code(t, v[1]);
  }

  lemma BytesThree(v: seq<Byte>)
    requires |v| == 3
    ensures AllBits(v) == BitsOf(v[0], 8) + BitsOf(v[1], 8) + BitsOf(v[2], 8)
  {
    var two := v[..2];
    var one := two[..1];
    assert one[..0] == [] && AllBits(one) == BitsOf(v[0], 8);
    assert AllBits(two) == AllBits(one) + BitsOf(v[1], 8);
  }

  lemma CodeOf(s: nat, e: Entry)
    requires s <= EOS && EntryOf(s) == e
    ensures Code(SHIPPED, s) == BitsOf(e.code, e.codeLen)
  {
  }

  lemma Code3(s: nat, e: Entry)
    requires s == 0x33 && e == Entry(0x19, 6)
    ensures Code(SHIPPED, s) == [false, true, true, false, false, true]
  {
    CodeOf(s, e);
    LowBits(e.code, [false, false, false, true, true, false, false, true], e.codeLen);
  }

  lemma Code0(s: nat, e: Entry)
    requires s == 0x30 && e == Entry(0, 5)
    ensures Code(SHIPPED, s) == [false, false, false, false, false]
  {
    CodeOf(s, e);
    LowBits(e.code, [false, false, false, false, false, false, false, false], e.codeLen);
  }

  lemma Code7(s: nat, e: Entry)
    requires s == 0x37 && e == Entry(0x1d, 6)
    ensures Code(SHIPPED, s) == [false, true, true, true, false, true]
  {
    CodeOf(s, e);
    LowBits(e.code, [false, false, false, true, true, true, false, true], e.codeLen);
  }

  lemma LowBits(n: nat, bits: BitString, len: nat)
    requires |bits| == 8 && len <= 8
    requires (bits[0] <==> n / 128 % 2 == 1) && (bits[1] <==> n / 64 % 2 == 1)
    requires (bits[2] <==> n / 32 % 2 == 1) && (bits[3] <==> n / 16 % 2 == 1)
    requires (bits[4] <==> n / 8 % 2 == 1) && (bits[5] <==> n / 4 % 2 == 1)
    requires (bits[6] <==> n / 2 % 2 == 1) && (bits[7] <==> n % 2 == 1)
    ensures BitsOf(n, len) == bits[8 - len..]
  {
    ByteBits(n, bits);
    CutBits(n, |bits| - len, len);
  }

  lemma Bits307(code3: BitString, code0: BitString, code7: BitString, first: BitString, second: BitString, third: BitString)
    requires code3 == [false, true, true, false, false, true] && code0 == [false, false, false, false, false]
    requires code7 == [false, true, true, true, false, true]
    requires first == [false, true, true, false, false, true, false, false]
    requires second == [false, false, false, false, true, true, true, false]
    requires third == [true, true, true, true, true, true, true, true]
    ensures first + second + third == (code3 + code0 + code7) + Ones(7)
  {
  }

  lemma Bytes307(bytes: seq<Byte>)
    requires bytes == [0x64, 0x0e, 0xff]
    ensures BitsOf(bytes[0], 8) == [false, true, true, false, false, true, false, false]
    ensures BitsOf(bytes[1], 8) == [false, false, false, false, true, true, true, false]
    ensures BitsOf(bytes[2], 8) == [true, true, true, true, true, true, true, true]
  {
    ByteBits(bytes[0], [false, true, true, false, false, true, false, false]);
    ByteBits(bytes[1], [false, false, false, false, true, true, true, false]);
    ByteBits(bytes[2], [true, true, true, true, true, true, true, true]);
  }

  /** The status "307" as in section C.6.2 of RFC 7541: 64 0e ff. */
  lemma Example307(value: seq<Byte>, bytes: seq<Byte>)
    requires value == [0x33, 0x30, 0x37] && bytes == [0x64, 0x0e, 0xff]
    ensures Packs(SHIPPED, bytes, value)
  {
    EncodedThree(SHIPPED, value);
    BytesThree(bytes);
    Code3(value[0], Entry(0x19, 6));
    Code0(value[1], Entry(0, 5));
    Code7(value[2], Entry(0x1d, 6));
    Bytes307(bytes);
    Bits307(Code(SHIPPED, value[0]), Code(SHIPPED, value[1]), Code(SHIPPED, value[2]),
            BitsOf(bytes[0], 8), BitsOf(bytes[1], 8), BitsOf(bytes[2], 8));
  }
}
