/** The text form of IPv6 addresses: what the printer writes, what the two passes of the
    parser compute, and why the second undoes the first (RFC 5952). */
module Ipv6Text {
  import opened Basics
  import opened NumberText

  /** `addr_16`: the groups of an address as stored, in network byte order. */
  type Address = a: seq<Word> | |a| == 8 witness [0, 0, 0, 0, 0, 0, 0, 0]

  const ZERO: Address := [0, 0, 0, 0, 0, 0, 0, 0]

  /** `changeEndian` on 16 bits */
  function Swap16(x: Word): Word {
    x % 256 * 256 + x / 256
  }

  lemma SwapTwice(x: Word)
    ensures Swap16(Swap16(x)) == x
  {
    var high, low := x / 256, x % 256;
    assert (low * 256 + high) / 256 == low && (low * 256 + high) % 256 == high;
  }

  // ----- the text of an address -----

  /** The compressed run; a start of 8 stands for none. */
  datatype Run = Run(start: nat, size: nat)

  predicate ZeroRun(a: Address, start: nat, size: nat) {
    start + size <= 8 && forall i :: start <= i < start + size ==> a[i] == 0
  }

  /** Sections 4.2.2 and 4.2.3 of RFC 5952: the leftmost longest run of at least two zero
      groups is compressed, if there is one. */
  ghost predicate LeftmostLongest(a: Address, run: Run) {
    if run.start == 8 then
      run.size == 1 && forall s, n :: 2 <= n && 0 <= s ==> !ZeroRun(a, s, n)
    else
      && run.size >= 2 && ZeroRun(a, run.start, run.size)
      && forall s, n :: 0 <= s && 0 <= n && ZeroRun(a, s, n) ==> n < run.size || (n == run.size && run.start <= s)
  }

  /** What may be compressed without changing the address. */
  predicate MayCompress(a: Address, run: Run) {
    run.start == 8 || (run.size >= 2 && ZeroRun(a, run.start, run.size))
  }

  function GroupText(a: Address, index: nat, letters: NumberCase): string
    requires index < 8
  {
    Digits(Swap16(a[index]), Hexadecimal, letters)
  }

  /** Eight groups of digits, with the groups of the run left open, as a text from group
      `index` on. */
  function Joined(g: seq<string>, run: Run, index: nat): string
    requires Joins(g, run)
    decreases 8 - index
  {
    if index >= 8 then []
    else if index == run.start then (if index == 0 then ":" else "") + ":" + Joined(g, run, After(run))
    else g[index] + (if index != 7 then ":" else "") + Joined(g, run, index + 1)
  }

  /** What stands at group `index`. */
  function Piece(g: seq<string>, run: Run, index: nat): string
    requires index < |g|
  {
    if index == run.start then (if index == 0 then ":" else "") + ":" else g[index] + (if index != 7 then ":" else "")
  }

  lemma FirstPiece(g: seq<string>, run: Run, index: nat)
    requires Joins(g, run) && index < 8
    ensures Joined(g, run, index)
         == Piece(g, run, index) + Joined(g, run, if index == run.start then After(run) else index + 1)
  {
  }

  /** Eight groups, each with a digit, and a run of at least one group or none. */
  predicate Joins(g: seq<string>, run: Run) {
    && |g| == 8
    && (forall i :: 0 <= i < 8 ==> g[i] != [] && PlainGroup(g[i]))
    && (run.start == 8 || (run.size >= 1 && After(run) <= 8))
  }

  predicate PlainGroup(d: string) {
    forall k :: 0 <= k < |d| ==> IsDigit(d[k])
  }

  function After(run: Run): nat {
    run.start + run.size
  }

  function Groups(a: Address, letters: NumberCase): (g: seq<string>)
    ensures |g| == 8 && forall i :: 0 <= i < 8 ==> g[i] == GroupText(a, i, letters)
  {
    seq(8, i requires 0 <= i < 8 => GroupText(a, i, letters))
  }

  lemma GroupsJoin(a: Address, run: Run, letters: NumberCase)
    requires MayCompress(a, run)
    ensures Joins(Groups(a, letters), run)
  {
  }

  /** The printed text from group `index` on. */
  function TextFrom(a: Address, run: Run, letters: NumberCase, index: nat): string
    requires MayCompress(a, run)
  {
    GroupsJoin(a, run, letters);
    Joined(Groups(a, letters), run, index)
  }

  predicate PlainText(s: string) {
    forall k :: 0 <= k < |s| ==> IsDigit(s[k]) || s[k] == ':'
  }

  lemma PlainConcat(s: string, t: string)
    requires PlainText(s) && PlainText(t)
    ensures PlainText(s + t)
  {
  }

  lemma {:induction false} TextIsPlain(g: seq<string>, run: Run, index: nat)
    requires Joins(g, run)
    ensures PlainText(Joined(g, run, index))
    decreases 8 - index
  {
    if index >= 8 {
    } else if index == run.start {
      TextIsPlain(g, run, After(run));
      PlainConcat((if index == 0 then ":" else "") + ":", Joined(g, run, After(run)));
    } else {
      TextIsPlain(g, run, index + 1);
      PlainConcat(g[index] + (if index != 7 then ":" else ""), Joined(g, run, index + 1));
    }
  }

  /** With its NUL the text fits the 40 bytes the source sets aside. */
  lemma {:induction false} TextLength(a: Address, run: Run, letters: NumberCase, index: nat)
    requires MayCompress(a, run)
    ensures |TextFrom(a, run, letters, index)| + 1 <= Max(1, 5 * (8 - index))
    decreases 8 - index
  {
    if index >= 8 {
    } else {
      if index == run.start {
        TextLength(a, run, letters, index + run.size);
      } else {
        TextLength(a, run, letters, index + 1);
        GroupLength(a, index, letters);
      }
    }
  }

  lemma GroupLength(a: Address, index: nat, letters: NumberCase)
    requires index < 8
    ensures |GroupText(a, index, letters)| <= 4
  {
    DigitCount(Swap16(a[index]), Hexadecimal, letters);
  }

  // ----- the first pass: counting colons -----

  datatype Colons = Colons(pos: nat, last: bool, start: nat)

  function CountColon(st: Colons, c: char): Colons {
    if c == ':' then Colons(st.pos + 1, true, if st.last then st.pos else st.start) else st.(last := false)
  }

  function CountColons(s: string, st: Colons): Colons
    decreases |s|
  {
    if s == [] then st else CountColons(s[1..], CountColon(st, s[0]))
  }

  // ----- the second pass: filling the address -----

  datatype Filling = Filling(pos: int, hex: Word, addr: Address)

  /** One character; None when the source would write outside the address. The skip may be
      negative, as the sizes of the source wrap around. */
  function Fill(start: nat, skip: int, st: Filling, c: char): Option<Filling> {
    if c == ':' then
      if !(0 <= st.pos < 8) then None else
        var addr := st.addr[st.pos := Swap16(st.hex)];
        Some(if st.pos == start then Filling(st.pos + skip, st.hex, addr) else Filling(st.pos + 1, 0, addr))
    else Some(st.(hex := AddDigit(st.hex, Hexadecimal, c)))
  }

  function FillAll(s: string, start: nat, skip: int, st: Filling): Option<Filling>
    decreases |s|
  {
    if s == [] then Some(st) else
      match Fill(start, skip, st, s[0])
      case None => None
      case Some(next) => FillAll(s[1..], start, skip, next)
  }

  /** The closing assertion and the last group. */
  function Finish(st: Option<Filling>): Option<Address> {
    match st
    case None => None
    case Some(f) => if f.pos == 7 then Some(f.addr[7 := Swap16(f.hex)]) else None
  }

  /** `to_ipv6_addr_t` on a text without terminators */
  function Parse(s: string): Option<Address> {
    var colons := CountColons(s, Colons(0, false, 8));
    Finish(FillAll(s, colons.start, 8 - colons.pos, Filling(0, 0, ZERO)))
  }

  // ----- both passes on concatenations -----

  lemma {:induction false} CountColonsConcat(s: string, t: string, st: Colons)
    ensures CountColons(s + t, st) == CountColons(t, CountColons(s, st))
    decreases |s|
  {
    if s == [] {
      assert s + t == t;
    } else {
      assert (s + t)[1..] == s[1..] + t;
      CountColonsConcat(s[1..], t, CountColon(st, s[0]));
    }
  }

  lemma {:induction false} FillAllConcat(s: string, t: string, start: nat, skip: int, st: Filling)
    ensures FillAll(s + t, start, skip, st)
         == match FillAll(s, start, skip, st) case None => None case Some(next) => FillAll(t, start, skip, next)
    decreases |s|
  {
    if s == [] {
      assert s + t == t;
    } else {
      assert (s + t)[1..] == s[1..] + t;
      match Fill(start, skip, st, s[0])
      case None =>
      case Some(next) => FillAllConcat(s[1..], t, start, skip, next);
    }
  }

  lemma CountOneColon(rest: string, st: Colons)
    ensures CountColons(":" + rest, st) == CountColons(rest, CountColon(st, ':'))
  {
    assert (":" + rest)[1..] == rest;
  }

  lemma FillOneColon(rest: string, start: nat, skip: int, st: Filling)
    ensures FillAll(":" + rest, start, skip, st)
         == match Fill(start, skip, st, ':') case None => None case Some(next) => FillAll(rest, start, skip, next)
  {
    assert (":" + rest)[1..] == rest;
  }

  lemma {:induction false} CountDigits(d: string, st: Colons)
    requires PlainGroup(d)
    ensures CountColons(d, st) == if d == [] then st else st.(last := false)
    decreases |d|
  {
    if d == [] {
    } else {
      CountDigits(d[1..], CountColon(st, d[0]));
    }
  }

  lemma {:induction false} FillDigits(d: string, start: nat, skip: int, st: Filling)
    requires PlainGroup(d) && st.hex == 0
    ensures FillAll(d, start, skip, st) == Some(st.(hex := Number(d, Hexadecimal)))
    decreases |d|
  {
    if d == [] {
    } else {
      var init, last := d[..|d| - 1], d[|d| - 1];
      assert d == init + [last];
      FillDigits(init, start, skip, st);
      FillAllConcat(init, [last], start, skip, st);
    }
  }

  // ----- the first pass on a printed text -----

  /** How many colons the text from `index` on has. */
  function ColonCount(run: Run, index: nat): nat
    requires index <= 8
  {
    if run.start >= 8 || index > run.start then (if index < 8 then 7 - index else 0)
    else run.start - index + (if run.start == 0 then 2 else 1) + (if After(run) < 8 then 7 - After(run) else 0)
  }

  /** Where the second colon of the double colon stands among the colons. */
  function DoubleColon(run: Run): nat {
    if run.start == 0 then 1 else run.start
  }

  lemma GroupThenColon(g: seq<string>, run: Run, index: nat)
    requires Joins(g, run) && index < 7 && index != run.start
    ensures Joined(g, run, index)
         == g[index] + (":" + Joined(g, run, index + 1))
  {
    assert (g[index] + ":") + Joined(g, run, index + 1)
        == g[index] + (":" + Joined(g, run, index + 1));
  }

  lemma CountGroup(g: seq<string>, run: Run, index: nat, st: Colons)
    requires Joins(g, run) && index < 8 && index != run.start
    ensures CountColons(Joined(g, run, index), st)
         == if index == 7 then Colons(st.pos, false, st.start)
            else CountColons(Joined(g, run, index + 1), Colons(st.pos + 1, true, st.start))
  {
    var group, rest := g[index], Joined(g, run, index + 1);
    CountDigits(group, st);
    if index == 7 {
      assert Joined(g, run, index) == group;
    } else {
      GroupThenColon(g, run, index);
      CountColonsConcat(group, ":" + rest, st);
      CountOneColon(rest, st.(last := false));
    }
  }

  /** Behind the run, or without one, no double colon is found. */
  lemma {:induction false} CountBehind(g: seq<string>, run: Run, index: nat, st: Colons)
    requires Joins(g, run) && index <= 8 && (run.start == 8 || index >= After(run))
    ensures var end := CountColons(Joined(g, run, index), st);
      end.pos == st.pos + (if index < 8 then 7 - index else 0) && end.start == st.start
    decreases 8 - index
  {
    if index >= 8 {
    } else {
      CountGroup(g, run, index, st);
      if index < 7 {
        CountBehind(g, run, index + 1, Colons(st.pos + 1, true, st.start));
      }
    }
  }

  lemma RunText(g: seq<string>, run: Run)
    requires Joins(g, run) && run.start < 8
    ensures var rest := Joined(g, run, After(run));
      Joined(g, run, run.start) == if run.start == 0 then ":" + (":" + rest) else ":" + rest
  {
  }

  lemma CountRun(g: seq<string>, run: Run, st: Colons)
    requires Joins(g, run) && run.start < 8 && st.last == (run.start > 0)
    ensures var end := CountColons(Joined(g, run, run.start), st);
      && end.pos == st.pos + ColonCount(run, run.start)
      && end.start == st.pos + if run.start == 0 then 1 else 0
  {
    var rest := Joined(g, run, After(run));
    var second := if run.start == 0 then CountColon(st, ':') else st;
    RunText(g, run);
    CountOneColon(":" + rest, st);
    CountOneColon(rest, second);
    CountBehind(g, run, After(run), CountColon(second, ':'));
  }

  /** In front of the run the first pass will find the double colon. */
  lemma {:induction false} CountInFront(g: seq<string>, run: Run, index: nat, st: Colons)
    requires Joins(g, run) && index <= run.start < 8 && st.last == (index > 0)
    ensures var end := CountColons(Joined(g, run, index), st);
      && end.pos == st.pos + ColonCount(run, index)
      && end.start == st.pos + run.start - index + if run.start == 0 then 1 else 0
    decreases 8 - index
  {
    if index == run.start {
      CountRun(g, run, st);
    } else {
      CountGroup(g, run, index, st);
      CountInFront(g, run, index + 1, Colons(st.pos + 1, true, st.start));
    }
  }

  lemma FirstPass(g: seq<string>, run: Run, none: Colons)
    requires Joins(g, run) && none == Colons(0, false, 8)
    ensures FirstPassGives(Joined(g, run, 0), run, none)
  {
    if run.start < 8 {
      CountInFront(g, run, 0, none);
    } else {
      CountBehind(g, run, 0, none);
    }
  }

  // ----- the second pass on a text of groups -----

  /** The address that a text stands for: the run is zero, and every other group is stored
      in network byte order. */
  ghost predicate Stores(g: seq<string>, run: Run, a: Address)
    requires |g| == 8
  {
    forall i :: 0 <= i < 8 ==> a[i] == if run.start <= i < After(run) then 0 else Swap16(Number(g[i], Hexadecimal))
  }

  /** The groups before `index` are filled in, the others still 0. */
  predicate FilledTo(addr: Address, a: Address, index: nat) {
    forall j :: 0 <= j < 8 ==> addr[j] == if j < index then a[j] else 0
  }

  lemma FillLastGroup(g: seq<string>, run: Run, a: Address, start: nat, skip: int, st: Filling)
    requires Joins(g, run) && Stores(g, run, a) && !(run.start <= 7 < After(run)) && st.pos == 7 && st.hex == 0 && FilledTo(st.addr, a, 7)
    ensures Finish(FillAll(Joined(g, run, 7), start, skip, st)) == Some(a)
  {
    var group := g[7];
    assert Joined(g, run, 7) == group;
    FillDigits(group, start, skip, st);
    assert st.addr[7 := a[7]] == a;
  }

  lemma FillThenColon(group: string, rest: string, start: nat, skip: int, st: Filling)
    requires PlainGroup(group) && st.hex == 0 && 0 <= st.pos < 8 && st.pos != start
    ensures FillAll(group + (":" + rest), start, skip, st)
         == FillAll(rest, start, skip, Filling(st.pos + 1, 0, st.addr[st.pos := Swap16(Number(group, Hexadecimal))]))
  {
    FillDigits(group, start, skip, st);
    FillAllConcat(group, ":" + rest, start, skip, st);
    FillOneColon(rest, start, skip, st.(hex := Number(group, Hexadecimal)));
  }

  lemma FillGroup(g: seq<string>, run: Run, a: Address, index: nat, start: nat, skip: int, st: Filling)
    requires Joins(g, run) && Stores(g, run, a) && index < 7 && !(run.start <= index < After(run))
    requires st.pos == index && st.hex == 0 && start != index
    ensures FillAll(Joined(g, run, index), start, skip, st)
         == FillAll(Joined(g, run, index + 1), start, skip, Filling(index + 1, 0, st.addr[index := a[index]]))
  {
    GroupThenColon(g, run, index);
    FillThenColon(g[index], Joined(g, run, index + 1), start, skip, st);
  }

  lemma NextFilled(addr: Address, a: Address, index: nat)
    requires index < 8 && FilledTo(addr, a, index)
    ensures FilledTo(addr[index := a[index]], a, index + 1)
  {
  }

  lemma {:induction false} FillBehind(g: seq<string>, run: Run, a: Address, index: nat, start: nat, skip: int,
                                      st: Filling)
    requires Joins(g, run) && Stores(g, run, a) && index <= 8 && (run.start == 8 || index >= After(run))
    requires start < index || start == 8
    requires st.hex == 0 && FilledTo(st.addr, a, index) && st.pos == (if index < 8 then index else 7)
    requires index == 8 ==> a[7] == 0
    ensures Finish(FillAll(Joined(g, run, index), start, skip, st)) == Some(a)
    decreases 8 - index
  {
    if index == 8 {
      assert st.addr[7 := 0] == a;
    } else if index == 7 {
      FillLastGroup(g, run, a, start, skip, st);
    } else {
      FillGroup(g, run, a, index, start, skip, st);
      NextFilled(st.addr, a, index);
      FillBehind(g, run, a, index + 1, start, skip, Filling(index + 1, 0, st.addr[index := a[index]]));
    }
  }

  /** A double colon in front that stands for one group. */
  predicate LeadingSingle(run: Run) {
    run == Run(0, 1)
  }

  /** Where the second pass stands after the double colon. */
  lemma SkipsTheRun(run: Run)
    requires run.start < 8 && run.size >= 1 && After(run) <= 8 && !LeadingSingle(run)
    ensures DoubleColon(run) + (8 - ColonCount(run, 0)) == if After(run) < 8 then After(run) else 7
    ensures DoubleColon(run) < After(run) <= 8
  {
  }

  lemma RunFilled(g: seq<string>, addr: Address, a: Address, run: Run)
    requires Joins(g, run) && Stores(g, run, a) && run.start < 8 && !LeadingSingle(run) && FilledTo(addr, a, run.start)
    ensures FilledTo(addr, a, After(run)) && a[After(run) - 1] == 0
    ensures addr[DoubleColon(run) := 0] == addr && addr[run.start := 0] == addr
  {
  }

  lemma FillDoubleColon(run: Run, text: string, rest: string, start: nat, skip: int, st: Filling, a: Address)
    requires run.start < 8 && start == DoubleColon(run) && st.hex == 0 && st.pos == run.start
    requires text == if run.start == 0 then ":" + (":" + rest) else ":" + rest
    requires st.addr[start := 0] == st.addr && st.addr[run.start := 0] == st.addr
    requires Finish(FillAll(rest, start, skip, Filling(start + skip, 0, st.addr))) == Some(a)
    ensures Finish(FillAll(text, start, skip, st)) == Some(a)
  {
    if run.start == 0 {
      FillOneColon(":" + rest, start, skip, st);
    }
    FillOneColon(rest, start, skip, Filling(start, 0, st.addr));
  }

  lemma FillBehindRun(g: seq<string>, run: Run, a: Address, start: nat, skip: int, addr: Address)
    requires Joins(g, run) && Stores(g, run, a) && run.start < 8 && FilledTo(addr, a, After(run)) && a[After(run) - 1] == 0
    requires start < After(run) <= 8 && start + skip == if After(run) < 8 then After(run) else 7
    ensures Finish(FillAll(Joined(g, run, After(run)), start, skip, Filling(start + skip, 0, addr))) == Some(a)
  {
    FillBehind(g, run, a, After(run), start, skip, Filling(start + skip, 0, addr));
  }

  lemma FillRun(g: seq<string>, run: Run, a: Address, start: nat, skip: int, st: Filling)
    requires Joins(g, run) && Stores(g, run, a) && run.start < 8 && !LeadingSingle(run)
    requires start == DoubleColon(run) && skip == 8 - ColonCount(run, 0)
    requires st.hex == 0 && FilledTo(st.addr, a, run.start) && st.pos == run.start
    ensures Finish(FillAll(Joined(g, run, run.start), start, skip, st)) == Some(a)
  {
    RunFilled(g, st.addr, a, run);
    SkipsTheRun(run);
    FillBehindRun(g, run, a, start, skip, st.addr);
    RunText(g, run);
    FillDoubleColon(run, Joined(g, run, run.start), Joined(g, run, After(run)), start, skip, st, a);
  }

  lemma {:induction false} FillInFront(g: seq<string>, run: Run, a: Address, index: nat, start: nat, skip: int, st: Filling)
    requires Joins(g, run) && Stores(g, run, a) && index <= run.start < 8 && !LeadingSingle(run)
    requires start == DoubleColon(run) && skip == 8 - ColonCount(run, 0)
    requires st.hex == 0 && FilledTo(st.addr, a, index) && st.pos == index
    ensures Finish(FillAll(Joined(g, run, index), start, skip, st)) == Some(a)
    decreases 8 - index
  {
    if index == run.start {
      FillRun(g, run, a, start, skip, st);
    } else {
      FillGroup(g, run, a, index, start, skip, st);
      NextFilled(st.addr, a, index);
      FillInFront(g, run, a, index + 1, start, skip, Filling(index + 1, 0, st.addr[index := a[index]]));
    }
  }

  lemma FillFromStart(g: seq<string>, run: Run, a: Address, empty: Filling)
    requires Joins(g, run) && Stores(g, run, a) && !LeadingSingle(run) && empty == Filling(0, 0, ZERO)
    ensures SecondPassGives(Joined(g, run, 0), run, empty, Some(a))
  {
    if run.start < 8 {
      FillInFront(g, run, a, 0, DoubleColon(run), 8 - ColonCount(run, 0), empty);
    } else {
      FillBehind(g, run, a, 0, DoubleColon(run), 8 - ColonCount(run, 0), empty);
    }
  }

  predicate FirstPassGives(s: string, run: Run, none: Colons) {
    CountColons(s, none).start == DoubleColon(run) && CountColons(s, none).pos == ColonCount(run, 0)
  }

  predicate SecondPassGives(s: string, run: Run, empty: Filling, r: Option<Address>) {
    Finish(FillAll(s, DoubleColon(run), 8 - ColonCount(run, 0), empty)) == r
  }

  lemma BothPasses(s: string, run: Run, none: Colons, empty: Filling, r: Option<Address>)
    requires none == Colons(0, false, 8) && empty == Filling(0, 0, ZERO)
    requires FirstPassGives(s, run, none) && SecondPassGives(s, run, empty, r)
    ensures Parse(s) == r
  {
  }

  lemma ParseJoined(g: seq<string>, run: Run, a: Address)
    requires Joins(g, run) && Stores(g, run, a) && !LeadingSingle(run)
    ensures Parse(Joined(g, run, 0)) == Some(a)
  {
    JoinedFrom(g, run, a, Colons(0, false, 8), Filling(0, 0, ZERO));
  }

  lemma JoinedFrom(g: seq<string>, run: Run, a: Address, none: Colons, empty: Filling)
    requires none == Colons(0, false, 8) && empty == Filling(0, 0, ZERO)
    requires Joins(g, run) && Stores(g, run, a) && !LeadingSingle(run)
    ensures Parse(Joined(g, run, 0)) == Some(a)
  {
    FirstPass(g, run, none);
    FillFromStart(g, run, a, empty);
    BothPasses(Joined(g, run, 0), run, none, empty, Some(a));
  }

  /** Without anything to skip, the second pass does not get past the second colon. */
  lemma {:induction false} StaysBehind(s: string, st: Filling)
    requires st.pos == 1
    ensures FillAll(s, 1, 0, st).Some? && FillAll(s, 1, 0, st).value.pos == 1
    decreases |s|
  {
    if s == [] {
    } else {
      StaysBehind(s[1..], Fill(1, 0, st, s[0]).value);
    }
  }

  lemma FailsBehind(rest: string, start: nat, empty: Filling)
    requires start == 1 && empty.pos == 0
    ensures Finish(FillAll(":" + (":" + rest), start, 0, empty)) == None
  {
    var second := Filling(1, 0, empty.addr[0 := Swap16(empty.hex)]);
    FillOneColon(":" + rest, start, 0, empty);
    FillOneColon(rest, start, 0, second);
    StaysBehind(rest, Filling(1, 0, second.addr[1 := Swap16(0)]));
  }

  lemma LeadingSingleFails(g: seq<string>, run: Run, none: Colons, empty: Filling)
    requires none == Colons(0, false, 8) && empty == Filling(0, 0, ZERO)
    requires Joins(g, run) && LeadingSingle(run)
    ensures Parse(Joined(g, run, 0)) == None
  {
    FirstPass(g, run, none);
    RunText(g, run);
    FailsBehind(Joined(g, run, After(run)), DoubleColon(run), empty);
    BothPasses(Joined(g, run, 0), run, none, empty, None);
  }

  // ----- what a text stands for -----

  /** The text spells the number whose bytes are `hi` and `lo`. */
  ghost predicate SpellsBytes(text: string, base: nat, hi: int, lo: int) {
    0 <= hi < 256 && 0 <= lo < 256 && Spells(text, base, hi * 256 + lo)
  }

  /** Byte i of an address is the first of its group in the text: the groups of the run are
      zero, and the word of every other group has the high byte of its number in front. */
  ghost predicate StandsFor(g: seq<string>, run: Run, a: Address)
    requires |g| == 8
  {
    forall i :: 0 <= i < 8 ==>
      if run.start <= i < run.start + run.size then a[i] == 0
      else SpellsBytes(g[i], 16, a[i] % 256, a[i] / 256)
  }

  lemma SwapOfBytes(hi: Byte, lo: Byte)
    ensures Swap16(hi * 256 + lo) == lo * 256 + hi
  {
    assert (hi * 256 + lo) / 256 == hi && (hi * 256 + lo) % 256 == lo;
  }

  lemma BytesFit(hi: Byte, lo: Byte)
    ensures (hi * 256 + lo) % 0x1_0000 == hi * 256 + lo
  {
  }

  lemma StoredValue(text: string, w: Word)
    requires SpellsBytes(text, 16, w % 256, w / 256)
    ensures Swap16(Number(text, Hexadecimal)) == w
  {
    var hi, lo := w % 256, w / 256;
    NumberSpelled(text, Hexadecimal, hi * 256 + lo);
    BytesFit(hi, lo);
    SwapOfBytes(hi, lo);
  }

  /** Every text of eight hexadecimal groups, with or without one double colon, in any case
      and with any leading zeros, is read as the address it stands for, except when the
      double colon is in front and stands for a single group: then the closing assertion
      fails. */
  lemma ParseTextIff(g: seq<string>, run: Run, a: Address)
    requires Joins(g, run) && StandsFor(g, run, a)
    ensures Parse(Joined(g, run, 0)) == (if run.start == 0 && run.size == 1 then None else Some(a))
  {
    if LeadingSingle(run) {
      LeadingSingleFails(g, run, Colons(0, false, 8), Filling(0, 0, ZERO));
    } else {
      forall i | 0 <= i < 8 && !(run.start <= i < After(run)) ensures Swap16(Number(g[i], Hexadecimal)) == a[i] {
        StoredValue(g[i], a[i]);
      }
      ParseJoined(g, run, a);
    }
  }

  /** A printed group spells its two bytes, the first stored one in front. */
  lemma GroupDenotes(a: Address, index: nat, letters: NumberCase, hi: Byte, lo: Byte)
    requires index < 8 && a[index] == lo * 256 + hi
    ensures SpellsBytes(GroupText(a, index, letters), 16, hi, lo)
  {
    SwapOfBytes(lo, hi);
    DigitsSpell(hi * 256 + lo, Hexadecimal, letters);
  }

  /** What is printed stands for the address. */
  lemma PrintedStandsFor(a: Address, run: Run, letters: NumberCase)
    requires MayCompress(a, run)
    ensures StandsFor(Groups(a, letters), run, a)
  {
    forall i | 0 <= i < 8 && !(run.start <= i < run.start + run.size)
      ensures SpellsBytes(Groups(a, letters)[i], 16, a[i] % 256, a[i] / 256)
    {
      GroupDenotes(a, i, letters, a[i] % 256, a[i] / 256);
    }
    if run.start < 8 {
      assert ZeroRun(a, run.start, run.size);
    }
  }

  /** Parsing undoes printing, wherever the compressed run stands and whatever the case of
      the letters. */
  lemma ParsePrinted(a: Address, run: Run, letters: NumberCase)
    requires MayCompress(a, run)
    ensures Parse(TextFrom(a, run, letters, 0)) == Some(a)
  {
    PrintedStandsFor(a, run, letters);
    ParseTextIff(Groups(a, letters), run, a);
  }
}
