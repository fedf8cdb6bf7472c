/** The printer and the parser of IPv6 addresses and sockets as imperative code. */
module Ipv6 {
  import opened Basics
  import opened NumberText
  import opened Ipv6Text

  const MAX_HEX_STRING: nat := 40

  // ----- printing -----

  predicate ZeroBehind(a: Address, index: nat, size: nat)
    requires index <= 8
  {
    size <= index && ZeroRun(a, index - size, size) && (size < index ==> a[index - size - 1] != 0)
  }

  /** The best run among those that end before `index`. */
  ghost predicate BestBefore(a: Address, run: Run, index: nat) {
    && (run.start == 8 ==> run.size == 1)
    && (run.start != 8 ==> run.size >= 2 && run.start + run.size <= index && ZeroRun(a, run.start, run.size))
    && forall s: nat, n: nat :: s + n <= index && ZeroRun(a, s, n)
         ==> n < run.size || (n == run.size && (n == 1 || run.start <= s))
  }

  lemma RunEndsHere(a: Address, index: nat, size: nat, s: nat, n: nat)
    requires index <= 8 && ZeroBehind(a, index, size) && ZeroRun(a, s, n) && s + n == index
    ensures n <= size
  {
  }

  /** One turn of the loop that looks for the run. */
  lemma BestStep(a: Address, run: Run, index: nat, size: nat, run': Run)
    requires index < 8 && BestBefore(a, run, index) && ZeroBehind(a, index + 1, size)
    requires run' == if size > run.size then Run(index + 1 - size, size) else run
    ensures BestBefore(a, run', index + 1)
  {
    forall s: nat, n: nat | s + n <= index + 1 && ZeroRun(a, s, n)
      ensures n < run'.size || (n == run'.size && (n == 1 || run'.start <= s))
    {
      if s + n == index + 1 {
        RunEndsHere(a, index + 1, size, s, n);
      }
    }
  }

  /** The first loop of the printer. */
  method FindRun(a: Address) returns (run: Run)
    ensures LeftmostLongest(a, run) && MayCompress(a, run)
  {
    run := Run(8, 1);
    var size: nat := 0;
    for index := 0 to 8
      invariant ZeroBehind(a, index, size) && BestBefore(a, run, index)
    {
      ghost var before := run;
      if a[index] == 0 {
        size := size + 1;
        if size > run.size {
          run := Run(index + 1 - size, size);
        }
      } else {
        size := 0;
      }
      BestStep(a, before, index, size, run);
    }
  }

  /** The run is determined by the address. */
  lemma RunIsUnique(a: Address, run: Run, other: Run)
    requires LeftmostLongest(a, run) && LeftmostLongest(a, other)
    ensures run == other
  {
    if run.start != 8 && other.start != 8 {
      assert ZeroRun(a, run.start, run.size) && ZeroRun(a, other.start, other.size);
    }
  }

  twostate predicate OnlyBetween(dest: array<char>, from: nat, to: nat)
    reads dest
  {
    forall k :: 0 <= k < dest.Length && !(from <= k < to) ==> dest[k] == old(dest[k])
  }

  /** One group, and the colon behind it. */
  method PrintGroup(a: Address, index: nat, letters: NumberCase, dest: array<char>, at: nat, ghost before: string)
    returns (end: nat)
    requires index < 8 && at + 5 <= dest.Length && at >= |before| && dest[at - |before|..at] == before
    modifies dest
    ensures at <= end <= at + 5 && OnlyBetween(dest, at, end)
    ensures dest[at - |before|..end] == before + (GroupText(a, index, letters) + (if index != 7 then ":" else ""))
  {
    GroupLength(a, index, letters);
    ghost var start := at - |before|;
    end := ToString(Swap16(a[index]), Hexadecimal, letters, dest, at);
    assert dest[start..end] == before + GroupText(a, index, letters) by {
      assert dest[start..end] == dest[start..at] + dest[at..end];
    }
    if index != 7 {
      PutChar(dest, start, end, ':');
      end := end + 1;
    } else {
      assert before + GroupText(a, index, letters) + [] == before + GroupText(a, index, letters);
    }
  }

  /** The double colon. */
  method PrintRun(run: Run, dest: array<char>, at: nat, ghost before: string) returns (end: nat)
    requires run.start < 8 && at + 2 <= dest.Length && at >= |before| && dest[at - |before|..at] == before
    modifies dest
    ensures at <= end <= at + 2 && OnlyBetween(dest, at, end)
    ensures dest[at - |before|..end] == before + ((if run.start == 0 then ":" else "") + ":")
  {
    ghost var start := at - |before|;
    end := at;
    if run.start == 0 {
      PutChar(dest, start, end, ':');
      end := end + 1;
    }
    PutChar(dest, start, end, ':');
    end := end + 1;
  }

  lemma NextPiece(a: Address, run: Run, letters: NumberCase, index: nat, before: string)
    requires MayCompress(a, run) && index < 8
    ensures var next := if index == run.start then index + run.size else index + 1;
      && next <= 8
      && before + TextFrom(a, run, letters, index) == (before + Piece(Groups(a, letters), run, index)) + TextFrom(a, run, letters, next)
  {
    var next := if index == run.start then index + run.size else index + 1;
    GroupsJoin(a, run, letters);
    FirstPiece(Groups(a, letters), run, index);
    Associate(before, Piece(Groups(a, letters), run, index), TextFrom(a, run, letters, next));
  }

  /** One turn of the printing loop. */
  method PrintNext(a: Address, run: Run, index: nat, letters: NumberCase, dest: array<char>, start: nat, at: nat)
    returns (end: nat, next: nat)
    requires MayCompress(a, run) && index < 8 && start <= at && at + 5 <= dest.Length
    modifies dest
    ensures at <= end <= at + 5 && OnlyBetween(dest, at, end) && index < next <= 8
    ensures old(dest[start..at]) + TextFrom(a, run, letters, index) == dest[start..end] + TextFrom(a, run, letters, next)
  {
    NextPiece(a, run, letters, index, dest[start..at]);
    if index == run.start {
      end := PrintRun(run, dest, at, dest[start..at]);
      next := index + run.size;
    } else {
      end := PrintGroup(a, index, letters, dest, at, dest[start..at]);
      next := index + 1;
    }
  }

  /** `to_string(ipv6_addr_t)`: the text of the address with its leftmost longest run
      compressed, and a NUL if wanted. */
  method Print(a: Address, letters: NumberCase, terminated: bool, dest: array<char>, at: nat)
    returns (end: nat, ghost run: Run)
    requires at + MAX_HEX_STRING <= dest.Length
    modifies dest
    ensures LeftmostLongest(a, run) && MayCompress(a, run)
    ensures at <= end <= at + MAX_HEX_STRING && OnlyBetween(dest, at, end)
    ensures !terminated ==> end < at + MAX_HEX_STRING
    ensures dest[at..end] == TextFrom(a, run, letters, 0) + (if terminated then ['\0'] else [])
  {
    var r := FindRun(a);
    run := r;
    end := PrintAll(a, r, letters, dest, at);
    if terminated {
      PutChar(dest, at, end, '\0');
      end := end + 1;
    }
  }

  /** The printing loop. */
  method PrintAll(a: Address, run: Run, letters: NumberCase, dest: array<char>, at: nat) returns (end: nat)
    requires MayCompress(a, run) && at + MAX_HEX_STRING <= dest.Length
    modifies dest
    ensures at <= end < at + MAX_HEX_STRING && OnlyBetween(dest, at, end)
    ensures dest[at..end] == TextFrom(a, run, letters, 0)
  {
    end := at;
    var index: nat := 0;
    ghost var text := TextFrom(a, run, letters, 0);
    TextLength(a, run, letters, 0);
    while index < 8
      invariant at <= end <= at + 5 * index && OnlyBetween(dest, at, end)
      invariant index <= 8 && text == dest[at..end] + TextFrom(a, run, letters, index)
      decreases 8 - index
    {
      end, index := PrintNext(a, run, index, letters, dest, at, end);
    }
  }

  // ----- parsing -----

  /** `to_ipv6_addr_t`: None when it would write outside the address or fail its
      assertion; `len` counts the characters up to and including the one it stops at. */
  method ParseAddress(text: string, braces: bool) returns (r: Option<Address>, len: nat)
    ensures r == Parse(Until(text, braces)) && len == |Until(text, braces)| + 1
  {
    ghost var s := Until(text, braces);
    var st := Colons(0, false, 8);
    var i := 0;
    while i < |text| && !Stops(text[i], braces)
      invariant 0 <= i <= |s| && CountColons(s, Colons(0, false, 8)) == CountColons(s[i..], st)
    {
      assert s[i..][1..] == s[i + 1..];
      if text[i] == ':' {
        if st.last {
          st := st.(start := st.pos);
        }
        st := Colons(st.pos + 1, true, st.start);
      } else {
        st := st.(last := false);
      }
      i := i + 1;
    }
    assert s[i..] == [];
    len := i + 1;
    r := FillAddress(text, braces, st);
  }

  /** The second loop. */
  method FillAddress(text: string, braces: bool, colons: Colons) returns (r: Option<Address>)
    ensures r == Finish(FillAll(Until(text, braces), colons.start, 8 - colons.pos, Filling(0, 0, ZERO)))
  {
    ghost var s := Until(text, braces);
    var skip := 8 - colons.pos;
    var addr := ZERO;
    var pos: int, hex: Word := 0, 0;
    var i := 0;
    while i < |text| && !Stops(text[i], braces)
      invariant 0 <= i <= |s|
      invariant FillAll(s, colons.start, skip, Filling(0, 0, ZERO)) == FillAll(s[i..], colons.start, skip, Filling(pos, hex, addr))
    {
      assert s[i..][1..] == s[i + 1..];
      if text[i] == ':' {
        if !(0 <= pos < 8) {
          return None;
        }
        addr := addr[pos := Swap16(hex)];
        if pos == colons.start {
          pos := pos + skip;
        } else {
          pos := pos + 1;
          hex := 0;
        }
      } else {
        hex := AddDigit(hex, Hexadecimal, text[i]);
      }
      i := i + 1;
    }
    if pos != 7 {
      return None;
    }
    r := Some(addr[7 := Swap16(hex)]);
  }

  /** Printing an address and parsing the text gives the address back; the text and its NUL
      fit 40 bytes. */
  method RoundTrip(a: Address, letters: NumberCase) returns (r: Option<Address>)
    ensures r == Some(a)
  {
    var buffer := new char[MAX_HEX_STRING];
    var end, run := Print(a, letters, true, buffer, 0);
    var text := buffer[..end];
    assert text == buffer[0..end];
    PrintedText(a, run, letters, false);
    UntilOf(TextFrom(a, run, letters, 0), ['\0'], false);
    var len;
    r, len := ParseAddress(text, false);
    ParsePrinted(a, run, letters);
  }

  /** A printed address contains nothing that reading stops at. */
  lemma PrintedText(a: Address, run: Run, letters: NumberCase, braces: bool)
    requires MayCompress(a, run)
    ensures NeverStops(TextFrom(a, run, letters, 0), braces)
  {
    TextIsPlain(Groups(a, letters), run, 0);
  }

  // ----- sockets -----

  /** `ipv6_socket_addr_t`, with the port as stored */
  datatype Socket = Socket(addr: Address, port: Word)

  const MAX_SOCKET_STRING: nat := MAX_HEX_STRING + 8

  function PortText(port: Word, letters: NumberCase): string {
    Digits(Swap16(port), Decimal, letters)
  }

  function SocketText(s: Socket, run: Run, letters: NumberCase): string
    requires MayCompress(s.addr, run)
  {
    "[" + TextFrom(s.addr, run, letters, 0) + "]:" + PortText(s.port, letters)
  }

  /** `to_string(ipv6_socket_addr_t)` */
  method PrintSocket(s: Socket, letters: NumberCase, dest: array<char>, at: nat) returns (end: nat, ghost run: Run)
    requires at + MAX_SOCKET_STRING <= dest.Length
    modifies dest
    ensures LeftmostLongest(s.addr, run) && MayCompress(s.addr, run)
    ensures at <= end <= at + MAX_SOCKET_STRING && OnlyBetween(dest, at, end)
    ensures dest[at..end] == SocketText(s, run, letters) + ['\0']
  {
    var text;
    text, run := PrintInner(s.addr, letters, dest, at);
    end := PrintPort(s.port, letters, dest, at, text);
    SocketParts(TextFrom(s.addr, run, letters, 0), PortText(s.port, letters));
  }

  /** The opening bracket and the address. */
  method PrintInner(a: Address, letters: NumberCase, dest: array<char>, at: nat) returns (end: nat, ghost run: Run)
    requires at + MAX_HEX_STRING < dest.Length
    modifies dest
    ensures LeftmostLongest(a, run) && MayCompress(a, run)
    ensures at <= end <= at + MAX_HEX_STRING && OnlyBetween(dest, at, end)
    ensures dest[at..end] == "[" + TextFrom(a, run, letters, 0)
  {
    PutChar(dest, at, at, '[');
    end, run := Print(a, letters, false, dest, at + 1);
    assert dest[at] == '[';
    Prepended(dest, at, end, '[', TextFrom(a, run, letters, 0));
  }

  lemma Prepended(dest: array<char>, at: nat, end: nat, c: char, text: string)
    requires at < end <= dest.Length && dest[at] == c && dest[at + 1..end] == text + []
    ensures dest[at..end] == [c] + text
  {
  }

  /** The closing bracket and the colon. */
  method PrintBracket(dest: array<char>, ghost start: nat, at: nat)
    requires start <= at && at + 2 <= dest.Length
    modifies dest
    ensures OnlyBetween(dest, at, at + 2) && dest[start..at + 2] == old(dest[start..at]) + "]:"
  {
    PutChar(dest, start, at, ']');
    PutChar(dest, start, at + 1, ':');
  }

  lemma SocketParts(inner: string, port: string)
    ensures "[" + inner + "]:" + port + ['\0'] == "[" + inner + ("]:" + port + ['\0'])
  {
  }

  lemma PortParts(before: string, digits: string)
    ensures (before + "]:") + digits + ['\0'] == before + ("]:" + digits + ['\0'])
  {
  }

  /** The closing bracket, the port and the NUL. */
  method PrintPort(port: Word, letters: NumberCase, dest: array<char>, ghost start: nat, at: nat) returns (end: nat)
    requires start <= at && at + 8 <= dest.Length
    modifies dest
    ensures at <= end <= at + 8 && OnlyBetween(dest, at, end)
    ensures dest[start..end] == old(dest[start..at]) + ("]:" + PortText(port, letters) + ['\0'])
  {
    DigitCount(Swap16(port), Decimal, letters);
    ghost var before := dest[start..at];
    PrintBracket(dest, start, at);
    end := ToString(Swap16(port), Decimal, letters, dest, at + 2);
    assert dest[start..end] == (before + "]:") + PortText(port, letters) by {
      assert dest[start..end] == dest[start..at + 2] + dest[at + 2..end];
    }
    PutChar(dest, start, end, '\0');
    end := end + 1;
    PortParts(before, PortText(port, letters));
  }

  /** What `to_ipv6_socket_addr_t` reads: an address up to the bracket, and a port from
      two characters further on. */
  function ParsedSocket(text: string): Option<Socket>
    requires text != []
  {
    var inner := Until(text[1..], true);
    match Parse(inner)
    case None => None
    case Some(addr) =>
      if |inner| + 3 > |text| then None else
        Some(Socket(addr, Swap16(Number(Until(text[|inner| + 3..], false), Decimal))))
  }

  /** `to_ipv6_socket_addr_t`; None also when the text ends before the port, where the
      source reads on behind it. */
  method ParseSocket(text: string) returns (r: Option<Socket>)
    requires text != []
    ensures r == ParsedSocket(text)
  {
    var addr, len := ParseAddress(text[1..], true);
    if addr == None || 1 + len + 1 > |text| {
      return None;
    }
    var port, portLen := ToUint(text[1 + len + 1..], Decimal);
    r := Some(Socket(addr.value, Swap16(port)));
  }

  /** A port is printed as the decimal numeral of its two bytes, the first stored one in
      front. */
  lemma PortDenotes(port: Word, letters: NumberCase, hi: Byte, lo: Byte)
    requires port == lo * 256 + hi
    ensures SpellsBytes(PortText(port, letters), 10, hi, lo)
  {
    SwapOfBytes(lo, hi);
    DigitsSpell(hi * 256 + lo, Decimal, letters);
  }

  lemma PortStored(port: string, w: Word)
    requires SpellsBytes(port, 10, w % 256, w / 256)
    ensures Swap16(Number(port, Decimal)) == w
  {
    var hi, lo := w % 256, w / 256;
    NumberSpelled(port, Decimal, hi * 256 + lo);
    BytesFit(hi, lo);
    SwapOfBytes(hi, lo);
  }

  /** Every bracketed text of eight groups, with or without one double colon, and every
      decimal port behind it are read as the socket they stand for, up to a NUL or the end;
      only a double colon in front that stands for a single group fails. */
  lemma ParseSocketIff(g: seq<string>, run: Run, s: Socket, port: string, rest: string)
    requires Joins(g, run) && StandsFor(g, run, s.addr)
    requires SpellsBytes(port, 10, s.port % 256, s.port / 256)
    requires rest == [] || rest[0] == '\0'
    ensures ParsedSocket("[" + Joined(g, run, 0) + "]:" + port + rest)
         == if run.start == 0 && run.size == 1 then None else Some(s)
  {
    var inner, w := Joined(g, run, 0), s.port;
    JoinedNeverStops(g, run, true);
    SpelledNeverStops(port, 10, w % 256 * 256 + w / 256);
    ParseTextIff(g, run, s.addr);
    PortStored(port, w);
    ParsedParts(inner, port, rest);
  }

  lemma SpelledNeverStops(port: string, base: nat, n: nat)
    requires Spells(port, base, n)
    ensures NeverStops(port, false)
  {
  }

  lemma JoinedNeverStops(g: seq<string>, run: Run, braces: bool)
    requires Joins(g, run)
    ensures NeverStops(Joined(g, run, 0), braces)
  {
    TextIsPlain(g, run, 0);
  }

  /** Printing a socket and parsing it gives it back. */
  lemma SocketRoundTrip(s: Socket, run: Run, letters: NumberCase)
    requires MayCompress(s.addr, run)
    ensures ParsedSocket(SocketText(s, run, letters) + ['\0']) == Some(s)
  {
    PrintedStandsFor(s.addr, run, letters);
    PortDenotes(s.port, letters, s.port % 256, s.port / 256);
    ParseSocketIff(Groups(s.addr, letters), run, s, PortText(s.port, letters), ['\0']);
  }

  /** The loopback address with port 80, as stored and as text. */
  lemma LoopbackText(a: Address, run: Run, letters: NumberCase)
    requires a == [0, 0, 0, 0, 0, 0, 0, 0x0100] && run == Run(0, 7)
    ensures LeftmostLongest(a, run) && MayCompress(a, run)
    ensures SocketText(Socket(a, 0x5000), run, letters) == "[::1]:80"
  {
    assert ZeroRun(a, 0, 7);
    GroupsJoin(a, run, letters);
    LoopbackGroups(Groups(a, letters), run);
    assert PortText(0x5000, letters) == "80";
  }

  lemma LoopbackGroups(g: seq<string>, run: Run)
    requires Joins(g, run) && run == Run(0, 7) && g[7] == "1"
    ensures Joined(g, run, 0) == "::1"
  {
    assert Joined(g, run, After(run)) == "1";
  }

  lemma SocketSlices(inner: string, port: string, rest: string)
    ensures var text := "[" + inner + "]:" + port + rest;
      text[1..] == inner + ("]:" + port + rest) && text[|inner| + 3..] == port + rest
  {
  }

  /** An address up to the bracket and a port behind the colon. */
  lemma ParsedParts(inner: string, port: string, rest: string)
    requires NeverStops(inner, true) && NeverStops(port, false) && (rest == [] || rest[0] == '\0')
    ensures ParsedSocket("[" + inner + "]:" + port + rest)
         == match Parse(inner) case None => None case Some(a) => Some(Socket(a, Swap16(Number(port, Decimal))))
  {
    var text := "[" + inner + "]:" + port + rest;
    SocketSlices(inner, port, rest);
    UntilOf(inner, "]:" + port + rest, true);
    UntilOf(port, rest, false);
  }
}
