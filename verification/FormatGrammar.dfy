/** Which format strings and argument lists the compile-time check accepts, stated by a
    grammar of specifiers that knows nothing of the automaton. */
module FormatGrammar {
  import opened Basics
  import opened FormatString

  /** A piece of a format string: a character, `%%`, a conversion with its modifiers, or one
      of the specifiers behind `%v`. */
  datatype Piece =
    | Letter(c: char)
    | PercentSign
    | Conversion(modifiers: string, letter: char)
    | Special(letter: char)

  function Spelled(p: Piece): string {
    match p
    case Letter(c) => [c]
    case PercentSign => "%%"
    case Conversion(modifiers, letter) => "%" + modifiers + [letter]
    case Special(letter) => "%v" + [letter]
  }

  function Text(pieces: seq<Piece>): string {
    if pieces == [] then [] else Text(pieces[..|pieces| - 1]) + Spelled(pieces[|pieces| - 1])
  }

  /** The specifiers, and the argument type that each one asks for. */
  predicate Asks(p: Piece, t: Type) {
    match p
    case Conversion(m, 'c') => (m == "" && t == Int8) || (m == "l" && t == Uint16)
    case Conversion(m, letter) =>
      || (letter in "di" && ((m == "" && t == Int32) || (m == "h" && t == Int16) || (m == "hh" && t == Int8)
                             || ((m == "l" || m == "ll") && t == Int64)))
      || (letter in "uoxX" && ((m == "" && t == Uint32) || (m == "h" && t == Uint16) || (m == "hh" && t == Uint8)
                               || ((m == "l" || m == "ll") && t == Uint64)))
      || (letter in "fF" && ((m == "" && t == Double) || (m == "h" && t == Float) || (m == "L" && t == LongDouble)))
    case Special(letter) =>
      || (letter in "nN" && t == Ipv6SocketAddr) || (letter in "iI" && t == Ipv6Addr) || (letter == 'p' && t == Ipv6Port)
      || (letter in "ec" && t == Int32) || (letter == 'E' && t == Err) || (letter in "gG" && t == Guid)
      || (letter == 'v' && t == Uint32) || (letter == 's' && t == StateId) || (letter == 'm' && t == ModuleId)
      || (letter == 'l' && t == LoggerLevel)
    case _ => false
  }

  /** How many arguments a piece takes. */
  function Takes(p: Piece): nat {
    if p.Letter? || p.PercentSign? then 0 else 1
  }

  /** The piece fits behind `n` arguments. A `%%` fits only where an argument is left. */
  predicate FitsHere(p: Piece, args: seq<Type>, n: nat) {
    match p
    case Letter(c) => c != '%'
    case PercentSign => n < |args|
    case _ => n < |args| && Asks(p, args[n])
  }

  /** The pieces fit the first `n` arguments. */
  ghost predicate Fits(pieces: seq<Piece>, args: seq<Type>, n: nat) {
    if pieces == [] then n == 0 else
      var last := pieces[|pieces| - 1];
      Takes(last) <= n && FitsHere(last, args, n - Takes(last)) && Fits(pieces[..|pieces| - 1], args, n - Takes(last))
  }

  // ----- from pieces to the automaton -----

  lemma OneMoreChar(s: string, args: seq<Type>, c: char)
    ensures Checked(s + [c], args) == CheckStep(Checked(s, args), args, c)
  {
    assert (s + [c])[..|s|] == s;
  }

  lemma {:induction false} FitsCount(pieces: seq<Piece>, args: seq<Type>, n: nat)
    requires Fits(pieces, args, n)
    ensures n <= |args|
    decreases |pieces|
  {
    if pieces == [] {
    } else {
      FitsCount(pieces[..|pieces| - 1], args, n - Takes(pieces[|pieces| - 1]));
    }
  }

  ghost predicate AtRest(st: CheckState, n: nat) {
    st.Going? && st.mode.Copy? && st.count == n
  }

  /** The modifier that the automaton holds behind these characters. */
  function ModifierOf(m: string): Modifier {
    if m == "h" then H else if m == "hh" then HH else if m == "l" then L else if m == "ll" then LL
    else if m == "L" then BigL else Plain
  }

  lemma PercentChecked(s: string, args: seq<Type>, n: nat)
    requires AtRest(Checked(s, args), n)
    ensures Checked(s + "%", args) == Going(Specifier, Plain, n)
  {
    OneMoreChar(s, args, '%');
  }

  lemma ModifierRead(st: CheckState, args: seq<Type>, c: char)
    requires st.Going? && st.mode.Specifier? && st.count < |args|
    ensures st.modifier.Plain? && c == 'h' ==> CheckStep(st, args, c) == st.(modifier := H)
    ensures st.modifier.Plain? && c == 'l' ==> CheckStep(st, args, c) == st.(modifier := L)
    ensures st.modifier.Plain? && c == 'L' ==> CheckStep(st, args, c) == st.(modifier := BigL)
    ensures st.modifier.H? && c == 'h' ==> CheckStep(st, args, c) == st.(modifier := HH)
    ensures st.modifier.L? && c == 'l' ==> CheckStep(st, args, c) == st.(modifier := LL)
  {
  }

  lemma ModifiersChecked(s: string, args: seq<Type>, st: CheckState, m: string)
    requires Checked(s, args) == st && st.Going? && st.mode.Specifier? && st.modifier.Plain? && st.count < |args|
    requires m in ["", "h", "hh", "l", "ll", "L"]
    ensures Checked(s + m, args) == st.(modifier := ModifierOf(m))
  {
    if m == "" {
      assert s + m == s;
    } else if |m| == 1 {
      OneMoreChar(s, args, m[0]);
      ModifierRead(st, args, m[0]);
      assert m == [m[0]];
    } else {
      TwoModifiers(s, args, st, m[0]);
      assert m == [m[0]] + [m[0]];
    }
  }

  lemma TwoModifiers(s: string, args: seq<Type>, st: CheckState, c: char)
    requires Checked(s, args) == st && st.Going? && st.mode.Specifier? && st.modifier.Plain? && st.count < |args|
    requires c == 'h' || c == 'l'
    ensures Checked(s + ([c] + [c]), args) == st.(modifier := if c == 'h' then HH else LL)
  {
    var first := CheckStep(st, args, c);
    OneMoreChar(s, args, c);
    ModifierRead(st, args, c);
    OneMoreChar(s + [c], args, c);
    ModifierRead(first, args, c);
    Associate(s, [c], [c]);
  }

  lemma AskedConversion(m: string, letter: char, args: seq<Type>, n: nat)
    requires n < |args| && Asks(Conversion(m, letter), args[n])
    ensures m in ["", "h", "hh", "l", "ll", "L"]
    ensures AtRest(CheckSpecifier(Going(Specifier, ModifierOf(m), n), args, letter), n + 1)
  {
  }

  lemma ConversionChecked(s: string, args: seq<Type>, n: nat, m: string, letter: char)
    requires AtRest(Checked(s, args), n) && n < |args| && Asks(Conversion(m, letter), args[n])
    ensures AtRest(Checked(s + ("%" + m + [letter]), args), n + 1)
  {
    AskedConversion(m, letter, args, n);
    PercentChecked(s, args, n);
    ModifiersChecked(s + "%", args, Going(Specifier, Plain, n), m);
    OneMoreChar(s + "%" + m, args, letter);
    assert s + ("%" + m + [letter]) == s + "%" + m + [letter];
  }

  lemma AskedSpecial(letter: char, args: seq<Type>, n: nat)
    requires n < |args| && Asks(Special(letter), args[n])
    ensures AtRest(CheckCustom(Going(Custom, Plain, n), args, letter), n + 1)
  {
  }

  lemma SpecialChecked(s: string, args: seq<Type>, n: nat, letter: char)
    requires AtRest(Checked(s, args), n) && n < |args| && Asks(Special(letter), args[n])
    ensures AtRest(Checked(s + ("%v" + [letter]), args), n + 1)
  {
    PercentChecked(s, args, n);
    OneMoreChar(s + "%", args, 'v');
    OneMoreChar(s + "%" + "v", args, letter);
    AskedSpecial(letter, args, n);
    assert s + ("%v" + [letter]) == s + "%" + "v" + [letter];
  }

  lemma PercentSignChecked(s: string, args: seq<Type>, n: nat)
    requires AtRest(Checked(s, args), n) && n < |args|
    ensures AtRest(Checked(s + "%%", args), n)
  {
    PercentChecked(s, args, n);
    OneMoreChar(s + "%", args, '%');
    assert s + "%%" == s + "%" + "%";
  }

  ghost predicate RestsAt(s: string, args: seq<Type>, n: nat) {
    AtRest(Checked(s, args), n)
  }

  lemma PieceChecked(s: string, args: seq<Type>, n: nat, p: Piece)
    requires RestsAt(s, args, n) && FitsHere(p, args, n)
    ensures RestsAt(s + Spelled(p), args, n + Takes(p))
  {
    match p
    case Letter(c) => OneMoreChar(s, args, c);
    case PercentSign => PercentSignChecked(s, args, n);
    case Conversion(m, letter) => ConversionChecked(s, args, n, m, letter);
    case Special(letter) => SpecialChecked(s, args, n, letter);
  }

  lemma {:induction false} FittingIsChecked(pieces: seq<Piece>, args: seq<Type>, n: nat)
    requires Fits(pieces, args, n)
    ensures RestsAt(Text(pieces), args, n)
    decreases |pieces|
  {
    if pieces == [] {
    } else {
      var init, last := pieces[..|pieces| - 1], pieces[|pieces| - 1];
      FittingIsChecked(init, args, n - Takes(last));
      PieceChecked(Text(init), args, n - Takes(last), last);
    }
  }

  // ----- from the automaton to pieces -----

  function ModifierText(m: Modifier): string {
    match m case Plain => "" case H => "h" case HH => "hh" case L => "l" case LL => "ll" case BigL => "L"
  }

  /** What the automaton has read of a piece that is not complete. */
  function Pending(st: CheckState): string
    requires st.Going?
  {
    match st.mode case Copy => "" case Specifier => "%" + ModifierText(st.modifier) case Custom => "%v"
  }

  ghost predicate Parsed(s: string, args: seq<Type>, st: CheckState, pieces: seq<Piece>)
    requires st.Going?
  {
    Fits(pieces, args, st.count) && s == Text(pieces) + Pending(st)
  }

  lemma OneMorePiece(pieces: seq<Piece>, p: Piece)
    ensures Text(pieces + [p]) == Text(pieces) + Spelled(p)
  {
    assert (pieces + [p])[..|pieces|] == pieces;
  }

  lemma FitsMore(pieces: seq<Piece>, args: seq<Type>, n: nat, p: Piece)
    requires Fits(pieces, args, n) && FitsHere(p, args, n)
    ensures Fits(pieces + [p], args, n + Takes(p))
  {
    assert (pieces + [p])[..|pieces|] == pieces;
  }

  /** The piece that the character completes, if it completes one. */
  function Completes(st: CheckState, c: char): Option<Piece>
    requires st.Going?
  {
    match st.mode
    case Copy => if c == '%' then None else Some(Letter(c))
    case Specifier =>
      if c == '%' then Some(PercentSign)
      else if c in "cdiuoxXfF" then Some(Conversion(ModifierText(st.modifier), c)) else None
    case Custom => Some(Special(c))
  }

  lemma CompletesText(st: CheckState, args: seq<Type>, c: char)
    requires st.Going? && CheckStep(st, args, c).Going?
    ensures var st' := CheckStep(st, args, c);
      match Completes(st, c)
      case Some(p) => Spelled(p) == Pending(st) + [c] && Pending(st') == ""
      case None => Pending(st') == Pending(st) + [c] && st'.count == st.count
  {
  }

  lemma CompletesFits(st: CheckState, args: seq<Type>, c: char)
    requires st.Going? && CheckStep(st, args, c).Going? && Completes(st, c).Some?
    ensures var p := Completes(st, c).value;
      FitsHere(p, args, st.count) && CheckStep(st, args, c).count == st.count + Takes(p)
  {
  }

  lemma PieceParses(s: string, args: seq<Type>, st: CheckState, pieces: seq<Piece>, c: char, p: Piece)
    requires st.Going? && Parsed(s, args, st, pieces) && Completes(st, c) == Some(p) && CheckStep(st, args, c).Going?
    ensures Parsed(s + [c], args, CheckStep(st, args, c), pieces + [p])
  {
    CompletesText(st, args, c);
    CompletesFits(st, args, c);
    FitsMore(pieces, args, st.count, p);
    OneMorePiece(pieces, p);
    Associate(Text(pieces), Pending(st), [c]);
    assert Text(pieces + [p]) + "" == Text(pieces + [p]);
  }

  lemma StepParses(s: string, args: seq<Type>, st: CheckState, pieces: seq<Piece>, c: char)
    requires st.Going? && Parsed(s, args, st, pieces) && CheckStep(st, args, c).Going?
    ensures exists pieces' :: Parsed(s + [c], args, CheckStep(st, args, c), pieces')
  {
    match Completes(st, c) {
      case None =>
        CompletesText(st, args, c);
        Associate(Text(pieces), Pending(st), [c]);
        assert Parsed(s + [c], args, CheckStep(st, args, c), pieces);
      case Some(p) =>
        PieceParses(s, args, st, pieces, c, p);
    }
  }

  ghost predicate HasPieces(s: string, args: seq<Type>, st: CheckState) {
    st.Going? ==> exists pieces :: Parsed(s, args, st, pieces)
  }

  lemma StepHasPieces(s: string, args: seq<Type>, st: CheckState, c: char)
    requires HasPieces(s, args, st)
    ensures HasPieces(s + [c], args, CheckStep(st, args, c))
  {
    if CheckStep(st, args, c).Going? {
      var pieces :| Parsed(s, args, st, pieces);
      StepParses(s, args, st, pieces, c);
    }
  }

  lemma {:induction false} CheckedParses(s: string, args: seq<Type>)
    ensures HasPieces(s, args, Checked(s, args))
    decreases |s|
  {
    if s == [] {
      assert Parsed(s, args, Checked(s, args), []);
    } else {
      var init, c := s[..|s| - 1], s[|s| - 1];
      assert s == init + [c];
      CheckedParses(init, args);
      StepHasPieces(init, args, Checked(init, args), c);
      OneMoreChar(init, args, c);
    }
  }

  // ----- what is accepted -----

  ghost predicate Reads(text: string, args: seq<Type>, pieces: seq<Piece>, n: nat) {
    Text(pieces) == text && Fits(pieces, args, n)
  }

  /** A string is accepted with its arguments exactly when it is made of characters, of
      specifiers that ask for the types of the first arguments in order, and of `%%` where an
      argument is left. */
  lemma AcceptedIff(text: string, args: seq<Type>)
    ensures Accepted(text, args) <==> exists pieces, n :: Reads(text, args, pieces, n)
  {
    if Accepted(text, args) {
      AcceptedEnds(text, args);
      CheckedParses(text, args);
      var st := Checked(text, args);
      var pieces :| Parsed(text, args, st, pieces);
      assert Text(pieces) + "" == Text(pieces);
      assert Reads(text, args, pieces, st.count);
    }
    if pieces, n :| Reads(text, args, pieces, n) {
      FittingIsChecked(pieces, args, n);
      OneMoreChar(text, args, '\0');
    }
  }

  /** How many bytes a specifier stores. */
  function Width(p: Piece): nat {
    match p
    case Conversion(m, letter) =>
      if letter == 'c' then (if m == "l" then 2 else 1)
      else if letter in "fF" then (if m == "h" then 4 else if m == "L" then 16 else 8)
      else if m == "hh" then 1 else if m == "h" then 2 else if m == "" then 4 else 8
    case Special(letter) =>
      if letter in "nN" then 18 else if letter in "iIgG" then 16 else if letter in "pEs" then 2
      else if letter == 'l' then 1 else 4
    case _ => 0
  }

  function TotalWidth(pieces: seq<Piece>): nat {
    if pieces == [] then 0 else TotalWidth(pieces[..|pieces| - 1]) + Width(pieces[|pieces| - 1])
  }

  lemma WidthIsSize(p: Piece, t: Type)
    requires Asks(p, t)
    ensures Size(t) == Width(p)
  {
  }

  /** The arguments that a fitting string takes have the total width of its specifiers. */
  lemma {:induction false} WidthIsTotal(pieces: seq<Piece>, args: seq<Type>, n: nat)
    requires Fits(pieces, args, n)
    ensures n <= |args| && TotalSize(args[..n]) == TotalWidth(pieces)
    decreases |pieces|
  {
    FitsCount(pieces, args, n);
    if pieces == [] {
      assert args[..0] == [];
    } else {
      var init, last := pieces[..|pieces| - 1], pieces[|pieces| - 1];
      var before := n - Takes(last);
      WidthIsTotal(init, args, before);
      if before < n {
        WidthIsSize(last, args[before]);
        assert args[..n][..before] == args[..before];
      }
    }
  }

  /** Without a modifier `L`, the length computed for an accepted string is the total width
      of its specifiers. */
  lemma LengthIsWidth(text: string, args: seq<Type>, pieces: seq<Piece>, n: nat)
    requires Reads(text, args, pieces, n) && BigLs(text) == 0
    ensures Listed(text + ['\0']).length == TotalWidth(pieces)
  {
    FittingIsChecked(pieces, args, n);
    OneMoreChar(text, args, '\0');
    AcceptedEnds(text, args);
    RunAgrees(text, args);
    LengthIsTotal(text);
    WidthIsTotal(pieces, args, n);
  }

  /** The first `i` characters begin with pieces that fit `n` arguments, and the code is an
      error of argument n or of the specifier for it. */
  ghost predicate NamesError(s: string, args: seq<Type>, code: nat, i: nat, pieces: seq<Piece>, n: nat) {
    && i < |s| && Fits(pieces, args, n) && Text(pieces) <= s[..i]
    && (code == 0x1_0000 + n || code == 0x2_0000 + n)
  }

  lemma ErrorCode(st: CheckState, args: seq<Type>, c: char)
    requires st.Going? && CheckStep(st, args, c).Returned?
    ensures var code := CheckStep(st, args, c).code; code == 0x1_0000 + st.count || code == 0x2_0000 + st.count
  {
  }

  ghost predicate HasNamedError(s: string, args: seq<Type>, code: nat) {
    exists i: nat, pieces, n: nat :: NamesError(s, args, code, i, pieces, n)
  }

  lemma LaterNamesError(s: string, args: seq<Type>, c: char, code: nat)
    requires HasNamedError(s, args, code)
    ensures HasNamedError(s + [c], args, code)
  {
    var i: nat, pieces, n: nat :| NamesError(s, args, code, i, pieces, n);
    assert (s + [c])[..i] == s[..i];
    assert NamesError(s + [c], args, code, i, pieces, n);
  }

  lemma NewNamesError(s: string, args: seq<Type>, st: CheckState, c: char)
    requires st.Going? && HasPieces(s, args, st) && CheckStep(st, args, c).Returned?
    ensures HasNamedError(s + [c], args, CheckStep(st, args, c).code)
  {
    var pieces :| Parsed(s, args, st, pieces);
    ErrorCode(st, args, c);
    assert (s + [c])[..|s|] == s;
    assert NamesError(s + [c], args, CheckStep(st, args, c).code, |s|, pieces, st.count);
  }

  /** The error of a rejected string names the argument at which it goes wrong: the part read
      before fits exactly that many arguments. */
  lemma {:induction false} ErrorNamesArgument(s: string, args: seq<Type>)
    requires Checked(s, args).Returned?
    ensures HasNamedError(s, args, Checked(s, args).code)
    decreases |s|
  {
    var init, c := s[..|s| - 1], s[|s| - 1];
    assert s == init + [c];
    OneMoreChar(init, args, c);
    if Checked(init, args).Returned? {
      ErrorNamesArgument(init, args);
      LaterNamesError(init, args, c, Checked(init, args).code);
    } else {
      CheckedParses(init, args);
      NewNamesError(init, args, Checked(init, args), c);
    }
  }

  lemma ListMore(s: string, c: char)
    ensures Listed(s + [c]) == ListStep(Listed(s), c)
  {
    assert (s + [c])[..|s|] == s;
  }

  lemma PercentThenNul(st: ListState, c: char, nul: char)
    requires st.mode.Copy? && c == '%' && nul == '\0'
    ensures var end := ListStep(ListStep(st, c), nul); !end.mode.Copy? && end.types == st.types + [BadType]
  {
  }

  lemma NotAtRest(s: string, args: seq<Type>, c: char)
    requires c == '%'
    ensures var st := CheckStep(Checked(s, args), args, c);
      st.Going? && Checked(s, args).Going? && Checked(s, args).mode.Copy? ==> st.mode.Specifier?
  {
  }

  /** A string that ends behind a percent sign has two bad entries more in its type list, one
      for the NUL and one for its end, and is not accepted. */
  lemma LonePercent(text: string, args: seq<Type>)
    requires Listed(text).mode.Copy?
    ensures TypeList((text + ['%']) + ['\0']) == Listed(text).types + [BadType] + [BadType]
    ensures !Accepted(text + ['%'], args)
  {
    ListMore(text, '%');
    ListMore(text + ['%'], '\0');
    PercentThenNul(Listed(text), '%', '\0');
    OneMoreChar(text, args, '%');
    NotAtRest(text, args, '%');
    RunAgrees(text, args);
    if Accepted(text + ['%'], args) {
      AcceptedEnds(text + ['%'], args);
    }
  }
}
