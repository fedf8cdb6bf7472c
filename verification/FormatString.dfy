/** The format strings of the binary log: three compile-time automata (the argument count,
    the type list and the check) and the reader's walk over the same string. */
module FormatString {

  /** `type_identifier`, as far as format strings name types */
  datatype Type =
    | Int8 | Int16 | Int32 | Int64 | Uint8 | Uint16 | Uint32 | Uint64 | Float | Double | LongDouble
    | Err | StateId | Guid | Ipv6Addr | Ipv6Port | Ipv6SocketAddr | ModuleId | LoggerLevel
    | Other(size: nat)
    | BadType

  /** `type_length` */
  function Size(t: Type): nat {
    match t
    case Int8 => 1 case Int16 => 2 case Int32 => 4 case Int64 => 8
    case Uint8 => 1 case Uint16 => 2 case Uint32 => 4 case Uint64 => 8
    case Float => 4 case Double => 8 case LongDouble => 16
    case Err => 2 case StateId => 2 case Guid => 16
    case Ipv6Addr => 16 case Ipv6Port => 2 case Ipv6SocketAddr => 18
    case ModuleId => 4 case LoggerLevel => 1
    case Other(size) => size
    case BadType => 0
  }

  function TotalSize(types: seq<Type>): nat {
    if types == [] then 0 else TotalSize(types[..|types| - 1]) + Size(types[|types| - 1])
  }

  datatype Mode = Copy | Specifier | Custom

  datatype Modifier = Plain | H | HH | L | LL | BigL

  // ----- formatstring_count -----

  datatype CountState = CountState(mode: Mode, count: nat)

  function CountStep(st: CountState, c: char): CountState {
    match st.mode
    case Copy => if c == '%' then st.(mode := Specifier) else st
    case Specifier =>
      if c == '%' then st.(mode := Copy)
      else if c == 'c' || c == 'd' || c == 'i' || c == 'u' || c == 'o' || c == 'x' || c == 'X' || c == 'f' || c == 'F' then
        CountState(Copy, st.count + 1)
      else if c == 'v' then st.(mode := Custom)
      else st
    case Custom =>
      if c == 'n' || c == 'N' || c == 'i' || c == 'I' || c == 'p' || c == 'e' || c == 'E' || c == 'g' || c == 'G'
        || c == 'v' || c == 's' || c == 'c' || c == 'm' || c == 'l'
      then CountState(Copy, st.count + 1)
      else st
  }

  function Counted(s: string): CountState {
    if s == [] then CountState(Copy, 0) else CountStep(Counted(s[..|s| - 1]), s[|s| - 1])
  }

  method FormatStringCount(fmt: string) returns (count: nat)
    ensures count == Counted(fmt).count
  {
    var state := Copy;
    count := 0;
    for i := 0 to |fmt|
      invariant CountState(state, count) == Counted(fmt[..i])
    {
      assert fmt[..i + 1][..i] == fmt[..i];
      var c := fmt[i];
      match state {
        case Copy =>
          if c == '%' { state := Specifier; }
        case Specifier =>
          if c == '%' {
            state := Copy;
          } else if c in "cdiuoxXfF" {
            count := count + 1;
            state := Copy;
          } else if c == 'v' {
            state := Custom;
          }
        case Custom =>
          if c in "nNiIpeEgGvscml" {
            count := count + 1;
            state := Copy;
          }
      }
    }
    assert fmt[..|fmt|] == fmt;
  }

  // ----- formatstring_type_list -----

  datatype ListState = ListState(mode: Mode, modifier: Modifier, types: seq<Type>, length: nat) {
    /** `next` has one more type and its length, or the same types. */
    predicate Extends(next: ListState) {
      || (next.types == types && next.length == length)
      || (|next.types| == |types| + 1 && next.types[..|types|] == types
          && next.length == length + Size(next.types[|types|]))
    }

    function Push(t: Type): (next: ListState)
      ensures Extends(next)
    {
      ListState(Copy, modifier, types + [t], length + Size(t))
    }

    /** `bad_type` adds no length and leaves the mode. */
    function PushBad(): (next: ListState)
      ensures Extends(next)
    {
      this.(types := types + [BadType])
    }
  }

  function ListSpecifier(st: ListState, c: char): ListState {
    var m := st.modifier;
    if c == '%' then st.(mode := Copy)
    else if c == 'c' then
      if m.Plain? then st.Push(Int8) else if m.L? then st.Push(Uint16) else st.(mode := Copy)
    else if c == 'd' || c == 'i' then
      match m
      case Plain => st.Push(Int32) case H => st.Push(Int16) case HH => st.Push(Int8)
      case L => st.Push(Int64) case LL => st.Push(Int64)
      case BigL => st.(mode := Copy)
    else if c == 'u' || c == 'o' || c == 'x' || c == 'X' then
      match m
      case Plain => st.Push(Uint32) case H => st.Push(Uint16) case HH => st.Push(Uint8)
      case L => st.Push(Uint64) case LL => st.Push(Uint64)
      case BigL => st.(mode := Copy)
    else if c == 'f' || c == 'F' then
      match m
      case H => st.Push(Float) case Plain => st.Push(Double) case BigL => st.Push(LongDouble)
      case _ => st.Push(BadType)
    else if c == 'v' then
      if !m.Plain? then st.PushBad() else st.(mode := Custom)
    else if c == 'h' then
      if !m.Plain? && !m.H? then st.PushBad() else st.(modifier := if m.H? then HH else H)
    else if c == 'l' then
      if !m.Plain? && !m.L? then st.PushBad() else st.(modifier := if m.L? then LL else L)
    else st.PushBad()
  }

  function ListCustom(st: ListState, c: char): ListState {
    if c == 'n' || c == 'N' then st.Push(Ipv6SocketAddr)
    else if c == 'i' || c == 'I' then st.Push(Ipv6Addr)
    else if c == 'p' then st.Push(Ipv6Port)
    else if c == 'e' then st.Push(Int32)
    else if c == 'E' then st.Push(Err)
    else if c == 'g' || c == 'G' then st.Push(Guid)
    else if c == 'v' then st.Push(Uint32)
    else if c == 's' then st.Push(StateId)
    else if c == 'c' then st.Push(Int32)
    else if c == 'm' then st.Push(ModuleId)
    else if c == 'l' then st.Push(LoggerLevel)
    else st.Push(BadType)
  }

  function ListStep(st: ListState, c: char): ListState {
    match st.mode
    case Copy => if c == '%' then st.(mode := Specifier, modifier := Plain) else st
    case Specifier => ListSpecifier(st, c)
    case Custom => ListCustom(st, c)
  }

  function Listed(s: string): ListState {
    if s == [] then ListState(Copy, Plain, [], 0) else ListStep(Listed(s[..|s| - 1]), s[|s| - 1])
  }

  /** The type list, with the entry for a string that ends inside a specifier. */
  function TypeList(fmt: string): seq<Type> {
    var st := Listed(fmt);
    if st.mode.Copy? then st.types else st.types + [BadType]
  }

  /** The constructor of `formatstring_type_list`; the source's list has only as many
      places as `formatstring_count` says. */
  method FormatStringTypeList(fmt: string) returns (types: seq<Type>, length: nat)
    ensures types == TypeList(fmt) && length == Listed(fmt).length
  {
    var state, modifier := Copy, Plain;
    types, length := [], 0;
    for i := 0 to |fmt|
      invariant ListState(state, modifier, types, length) == Listed(fmt[..i])
    {
      assert fmt[..i + 1][..i] == fmt[..i];
      var c := fmt[i];
      match state {
        case Copy =>
          if c == '%' { state, modifier := Specifier, Plain; }
        case Specifier =>
          if c == '%' {
            state := Copy;
          } else if c in "cdiuoxXfF" {
            types, length := ListConversion(modifier, c, types, length);
            state := Copy;
          } else if c == 'v' && modifier.Plain? {
            state := Custom;
          } else if c == 'h' && (modifier.Plain? || modifier.H?) {
            modifier := if modifier.H? then HH else H;
          } else if c == 'l' && (modifier.Plain? || modifier.L?) {
            modifier := if modifier.L? then LL else L;
          } else {
            types := types + [BadType];
          }
        case Custom =>
          types, length := ListCustomType(c, types, length);
          state := Copy;
      }
    }
    assert fmt[..|fmt|] == fmt;
    if !state.Copy? {
      types := types + [BadType];
    }
  }

  /** The inner switches over the modifier; no type is listed for a modifier they leave out. */
  method ListConversion(modifier: Modifier, c: char, types: seq<Type>, length: nat) returns (types': seq<Type>, length': nat)
    requires c in "cdiuoxXfF"
    ensures forall m :: ListSpecifier(ListState(m, modifier, types, length), c) == ListState(Copy, modifier, types', length')
  {
    types', length' := types, length;
    var t: Type;
    if c == 'c' {
      match modifier {
        case Plain => t := Int8;
        case L => t := Uint16;
        case _ => return;
      }
    } else if c == 'd' || c == 'i' {
      match modifier {
        case Plain => t := Int32;
        case H => t := Int16;
        case HH => t := Int8;
        case L => t := Int64;
        case LL => t := Int64;
        case BigL => return;
      }
    } else if c == 'f' || c == 'F' {
      match modifier {
        case H => t := Float;
        case Plain => t := Double;
        case BigL => t := LongDouble;
        case _ => t := BadType;
      }
    } else {
      match modifier {
        case Plain => t := Uint32;
        case H => t := Uint16;
        case HH => t := Uint8;
        case L => t := Uint64;
        case LL => t := Uint64;
        case BigL => return;
      }
    }
    types', length' := types + [t], length + Size(t);
  }

  method ListCustomType(c: char, types: seq<Type>, length: nat) returns (types': seq<Type>, length': nat)
    ensures forall m, modifier ::
              ListCustom(ListState(m, modifier, types, length), c) == ListState(Copy, modifier, types', length')
  {
    var t := BadType;
    if c == 'n' || c == 'N' { t := Ipv6SocketAddr; }
    else if c == 'i' || c == 'I' { t := Ipv6Addr; }
    else if c == 'p' { t := Ipv6Port; }
    else if c == 'e' || c == 'c' { t := Int32; }
    else if c == 'E' { t := Err; }
    else if c == 'g' || c == 'G' { t := Guid; }
    else if c == 'v' { t := Uint32; }
    else if c == 's' { t := StateId; }
    else if c == 'm' { t := ModuleId; }
    else if c == 'l' { t := LoggerLevel; }
    types', length' := types + [t], length + Size(t);
  }

  // ----- check_formatstring_helper -----

  const CHECK_SUCCESS: nat := 0
  const CHECK_ARGS_ERROR: nat := 0x10000
  const CHECK_FMTSTR_ERROR: nat := 0x20000

  /** Still going, with `count` arguments matched, or the code returned. */
  datatype CheckState = Going(mode: Mode, modifier: Modifier, count: nat) | Returned(code: nat)

  function Match(st: CheckState, args: seq<Type>, t: Type): CheckState
    requires st.Going?
  {
    if st.count < |args| && args[st.count] == t then Going(Copy, Plain, st.count + 1)
    else Returned(CHECK_ARGS_ERROR + st.count)
  }

  function CheckSpecifier(st: CheckState, args: seq<Type>, c: char): CheckState
    requires st.Going?
  {
    var m, bad := st.modifier, Returned(CHECK_FMTSTR_ERROR + st.count);
    if st.count >= |args| then Returned(CHECK_ARGS_ERROR + st.count)
    else if c == '%' then
      if !m.Plain? then bad else st.(mode := Copy)
    else if c == 'c' then
      if m.Plain? then Match(st, args, Int8) else if m.L? then Match(st, args, Uint16) else bad
    else if c == 'd' || c == 'i' then
      match m
      case Plain => Match(st, args, Int32) case H => Match(st, args, Int16) case HH => Match(st, args, Int8)
      case L => Match(st, args, Int64) case LL => Match(st, args, Int64)
      case BigL => bad
    else if c == 'u' || c == 'o' || c == 'x' || c == 'X' then
      match m
      case Plain => Match(st, args, Uint32) case H => Match(st, args, Uint16) case HH => Match(st, args, Uint8)
      case L => Match(st, args, Uint64) case LL => Match(st, args, Uint64)
      case BigL => bad
    else if c == 'f' || c == 'F' then
      match m
      case H => Match(st, args, Float) case Plain => Match(st, args, Double) case BigL => Match(st, args, LongDouble)
      case _ => bad
    else if c == 'v' then
      if !m.Plain? then bad else st.(mode := Custom)
    else if c == 'h' then
      match m case Plain => st.(modifier := H) case H => st.(modifier := HH) case _ => bad
    else if c == 'l' then
      match m case Plain => st.(modifier := L) case L => st.(modifier := LL) case _ => bad
    else if c == 'L' then
      if m.Plain? then st.(modifier := BigL) else bad
    else bad
  }

  function CheckCustom(st: CheckState, args: seq<Type>, c: char): CheckState
    requires st.Going?
  {
    if c == 'n' || c == 'N' then Match(st, args, Ipv6SocketAddr)
    else if c == 'i' || c == 'I' then Match(st, args, Ipv6Addr)
    else if c == 'p' then Match(st, args, Ipv6Port)
    else if c == 'e' then Match(st, args, Int32)
    else if c == 'E' then Match(st, args, Err)
    else if c == 'g' || c == 'G' then Match(st, args, Guid)
    else if c == 'v' then Match(st, args, Uint32)
    else if c == 's' then Match(st, args, StateId)
    else if c == 'c' then Match(st, args, Int32)
    else if c == 'm' then Match(st, args, ModuleId)
    else if c == 'l' then Match(st, args, LoggerLevel)
    else Returned(CHECK_FMTSTR_ERROR + st.count)
  }

  function CheckStep(st: CheckState, args: seq<Type>, c: char): CheckState {
    if st.Returned? then st else
      match st.mode
      case Copy => if c == '%' then st.(mode := Specifier, modifier := Plain) else st
      case Specifier => CheckSpecifier(st, args, c)
      case Custom => CheckCustom(st, args, c)
  }

  function Checked(s: string, args: seq<Type>): CheckState {
    if s == [] then Going(Copy, Plain, 0) else CheckStep(Checked(s[..|s| - 1], args), args, s[|s| - 1])
  }

  /** The type that the inner switches over the modifier compare with, if any. */
  method CheckedType(modifier: Modifier, c: char) returns (found: bool, t: Type)
    requires c in "cdiuoxXfF"
    ensures forall st: CheckState, args :: st.Going? && st.modifier == modifier && st.count < |args| ==>
              CheckSpecifier(st, args, c) == if found then Match(st, args, t) else Returned(CHECK_FMTSTR_ERROR + st.count)
  {
    found := true;
    t := BadType;
    if c == 'c' {
      match modifier {
        case Plain => t := Int8;
        case L => t := Uint16;
        case _ => found := false;
      }
    } else if c == 'd' || c == 'i' {
      match modifier {
        case Plain => t := Int32;
        case H => t := Int16;
        case HH => t := Int8;
        case L => t := Int64;
        case LL => t := Int64;
        case BigL => found := false;
      }
    } else if c == 'f' || c == 'F' {
      match modifier {
        case H => t := Float;
        case Plain => t := Double;
        case BigL => t := LongDouble;
        case _ => found := false;
      }
    } else {
      match modifier {
        case Plain => t := Uint32;
        case H => t := Uint16;
        case HH => t := Uint8;
        case L => t := Uint64;
        case LL => t := Uint64;
        case BigL => found := false;
      }
    }
  }

  /** The type that the switch behind `%v` compares with, if any. */
  method CheckedCustomType(c: char) returns (found: bool, t: Type)
    ensures forall st: CheckState, args :: st.Going? ==>
              CheckCustom(st, args, c) == if found then Match(st, args, t) else Returned(CHECK_FMTSTR_ERROR + st.count)
  {
    found := true;
    if c == 'n' || c == 'N' { t := Ipv6SocketAddr; }
    else if c == 'i' || c == 'I' { t := Ipv6Addr; }
    else if c == 'p' { t := Ipv6Port; }
    else if c == 'e' || c == 'c' { t := Int32; }
    else if c == 'E' { t := Err; }
    else if c == 'g' || c == 'G' { t := Guid; }
    else if c == 'v' { t := Uint32; }
    else if c == 's' { t := StateId; }
    else if c == 'm' { t := ModuleId; }
    else if c == 'l' { t := LoggerLevel; }
    else { found, t := false, BadType; }
  }

  /** `check_formatstring_helper` */
  method CheckFormatString(fmt: string, args: seq<Type>) returns (code: nat)
    ensures code == CHECK_SUCCESS <==> Checked(fmt, args).Going?
    ensures Checked(fmt, args).Returned? ==> code == Checked(fmt, args).code
  {
    var state, modifier, count := Copy, Plain, 0;
    code := CHECK_SUCCESS;
    for i := 0 to |fmt|
      invariant code == CHECK_SUCCESS && Going(state, modifier, count) == Checked(fmt[..i], args) && count <= |args|
    {
      var c := fmt[i];
      assert Checked(fmt[..i + 1], args) == CheckStep(Going(state, modifier, count), args, c) by {
        assert fmt[..i + 1][..i] == fmt[..i];
      }
      match state {
        case Copy =>
          if c == '%' { state, modifier := Specifier, Plain; }
        case Specifier =>
          if count == |args| {
            code := CHECK_ARGS_ERROR + count;
          } else if c in "cdiuoxXfF" {
            var found, t := CheckedType(modifier, c);
            if !found {
              code := CHECK_FMTSTR_ERROR + count;
            } else if args[count] != t {
              code := CHECK_ARGS_ERROR + count;
            } else {
              state, modifier, count := Copy, Plain, count + 1;
            }
          } else if c == '%' && modifier.Plain? {
            state := Copy;
          } else if c == 'v' && modifier.Plain? {
            state := Custom;
          } else if c == 'h' && (modifier.Plain? || modifier.H?) {
            modifier := if modifier.H? then HH else H;
          } else if c == 'l' && (modifier.Plain? || modifier.L?) {
            modifier := if modifier.L? then LL else L;
          } else if c == 'L' && modifier.Plain? {
            modifier := BigL;
          } else {
            code := CHECK_FMTSTR_ERROR + count;
          }
        case Custom =>
          var found, t := CheckedCustomType(c);
          if !found {
            code := CHECK_FMTSTR_ERROR + count;
          } else if count == |args| || args[count] != t {
            code := CHECK_ARGS_ERROR + count;
          } else {
            state, modifier, count := Copy, Plain, count + 1;
          }
      }
      if code != CHECK_SUCCESS {
        StaysReturned(fmt, args, i + 1);
        return;
      }
    }
    assert fmt[..|fmt|] == fmt;
  }

  lemma {:induction false} StaysReturned(fmt: string, args: seq<Type>, i: nat)
    requires i <= |fmt| && Checked(fmt[..i], args).Returned?
    ensures Checked(fmt, args) == Checked(fmt[..i], args)
    decreases |fmt| - i
  {
    if i == |fmt| {
      assert fmt[..i] == fmt;
    } else {
      assert fmt[..i + 1][..i] == fmt[..i];
      StaysReturned(fmt, args, i + 1);
    }
  }

  // ----- the reader -----

  /** The walk of `createLogsString`: the types it reads, one behind the other, from the
      arguments of an entry, and how far that has moved `data_args`. */
  datatype ReadState = ReadState(mode: Mode, modifier: Modifier, read: seq<Type>, consumed: nat) {
    function Take(t: Type): ReadState {
      ReadState(Copy, modifier, read + [t], consumed + Size(t))
    }
  }

  function ReadSpecifier(st: ReadState, c: char): ReadState {
    var m := st.modifier;
    if c == '%' then st.(mode := Copy)
    else if c == 'd' || c == 'i' then
      match m
      case H => st.Take(Int16) case HH => st.Take(Int8) case Plain => st.Take(Int32)
      case L => st.Take(Int64) case LL => st.Take(Int64)
      case BigL => st.(mode := Copy)
    else if c == 'u' || c == 'o' || c == 'x' || c == 'X' then
      match m
      case Plain => st.Take(Uint32) case H => st.Take(Uint16) case HH => st.Take(Uint8)
      case L => st.Take(Uint64) case LL => st.Take(Uint64)
      case BigL => st.(mode := Copy)
    else if c == 'f' then
      if m.L? then st.Take(Double) else st.Take(Float)
    else if c == 'c' then st.Take(Int8).(mode := Specifier)
    else if c == 'v' then st.(mode := Custom)
    else if c == 'h' then st.(modifier := if m.H? then HH else H)
    else if c == 'l' then st.(modifier := if m.L? then LL else L)
    else st.(mode := Copy)
  }

  function ReadCustom(st: ReadState, c: char): ReadState {
    if c == 'n' || c == 'N' then st.Take(Ipv6SocketAddr)
    else if c == 'i' || c == 'I' then st.Take(Ipv6Addr)
    else if c == 'p' then st.Take(Ipv6Port)
    else if c == 'e' then st.Take(Int32)
    else if c == 'E' then st.Take(Err)
    else if c == 'g' || c == 'G' then st.Take(Guid)
    else if c == 'v' then st.Take(Uint32)
    else if c == 's' then st.Take(StateId)
    else if c == 'c' then st.Take(Int32)
    else if c == 'm' then st.Take(ModuleId)
    else if c == 'l' then st.Take(LoggerLevel)
    else st.(mode := Copy)
  }

  function ReadStep(st: ReadState, c: char): ReadState {
    match st.mode
    case Copy => if c == '%' then st.(mode := Specifier, modifier := Plain) else st
    case Specifier => ReadSpecifier(st, c)
    case Custom => ReadCustom(st, c)
  }

  function ReadOver(s: string): (st: ReadState)
    ensures !st.modifier.BigL?
  {
    if s == [] then ReadState(Copy, Plain, [], 0) else ReadStep(ReadOver(s[..|s| - 1]), s[|s| - 1])
  }

  /** The loop of `createLogsString`, which ends at the NUL. */
  method CreateLogsString(text: string) returns (read: seq<Type>, consumed: nat)
    ensures read == ReadOver(text).read && consumed == ReadOver(text).consumed
  {
    var state, modifier := Copy, Plain;
    read, consumed := [], 0;
    for i := 0 to |text|
      invariant ReadState(state, modifier, read, consumed) == ReadOver(text[..i])
    {
      assert text[..i + 1][..i] == text[..i];
      var c := text[i];
      match state {
        case Copy =>
          if c == '%' { state, modifier := Specifier, Plain; }
        case Specifier =>
          if c == 'v' {
            state := Custom;
          } else if c == 'h' {
            modifier := if modifier.H? then HH else H;
          } else if c == 'l' {
            modifier := if modifier.L? then LL else L;
          } else if c == 'c' {
            read, consumed := read + [Int8], consumed + 1;
          } else {
            read, consumed := ReadConversion(modifier, c, read, consumed);
            state := Copy;
          }
        case Custom =>
          read, consumed := ReadCustomType(c, read, consumed);
          state := Copy;
      }
    }
    assert text[..|text|] == text;
  }

  /** The inner switches over the modifier; characters they leave out are ignored. */
  method ReadConversion(modifier: Modifier, c: char, read: seq<Type>, consumed: nat) returns (read': seq<Type>, consumed': nat)
    requires c !in "vhlc"
    ensures forall m :: ReadSpecifier(ReadState(m, modifier, read, consumed), c) == ReadState(Copy, modifier, read', consumed')
  {
    read', consumed' := read, consumed;
    var t: Type;
    if c == 'd' || c == 'i' {
      match modifier {
        case H => t := Int16;
        case HH => t := Int8;
        case Plain => t := Int32;
        case L => t := Int64;
        case LL => t := Int64;
        case BigL => return;
      }
    } else if c == 'u' || c == 'o' || c == 'x' || c == 'X' {
      match modifier {
        case Plain => t := Uint32;
        case H => t := Uint16;
        case HH => t := Uint8;
        case L => t := Uint64;
        case LL => t := Uint64;
        case BigL => return;
      }
    } else if c == 'f' {
      t := if modifier.L? then Double else Float;
    } else {
      return;
    }
    read', consumed' := read + [t], consumed + Size(t);
  }

  method ReadCustomType(c: char, read: seq<Type>, consumed: nat) returns (read': seq<Type>, consumed': nat)
    ensures forall m, modifier ::
              ReadCustom(ReadState(m, modifier, read, consumed), c) == ReadState(Copy, modifier, read', consumed')
  {
    read', consumed' := read, consumed;
    var t: Type;
    if c == 'n' || c == 'N' { t := Ipv6SocketAddr; }
    else if c == 'i' || c == 'I' { t := Ipv6Addr; }
    else if c == 'p' { t := Ipv6Port; }
    else if c == 'e' || c == 'c' { t := Int32; }
    else if c == 'E' { t := Err; }
    else if c == 'g' || c == 'G' { t := Guid; }
    else if c == 'v' { t := Uint32; }
    else if c == 's' { t := StateId; }
    else if c == 'm' { t := ModuleId; }
    else if c == 'l' { t := LoggerLevel; }
    else { return; }
    read', consumed' := read + [t], consumed + Size(t);
  }

  // ----- what the automata have in common -----

  /** Modifiers `L` among the specifiers of a string. */
  function BigLs(s: string): nat {
    if s == [] then 0 else
      BigLs(s[..|s| - 1]) + if Counted(s[..|s| - 1]).mode.Specifier? && s[|s| - 1] == 'L' then 1 else 0
  }

  predicate Bare(list: ListState, c: char) {
    c == 'F' || (c == 'f' && list.modifier.Plain?)
  }

  function NewBare(list: ListState, c: char): nat {
    if list.mode.Specifier? && Bare(list, c) then 1 else 0
  }

  /** Specifiers `%F`, and `%f` without a modifier. */
  function BareFloats(s: string): nat {
    if s == [] then 0 else BareFloats(s[..|s| - 1]) + NewBare(Listed(s[..|s| - 1]), s[|s| - 1])
  }

  /** Where the check, the count and the list stand after the same characters. */
  ghost predicate Agree(args: seq<Type>, check: CheckState, count: CountState, list: ListState, bigLs: nat) {
    check.Going? ==>
      && check.mode == count.mode == list.mode
      && check.count == count.count <= |args|
      && |list.types| == check.count + bigLs
      && (bigLs == 0 ==> list.types == args[..check.count])
      && (check.mode.Specifier? ==> list.modifier == if check.modifier.BigL? then Plain else check.modifier)
      && (check.mode.Specifier? && check.modifier.BigL? ==> bigLs > 0)
  }

  lemma MatchAgrees(args: seq<Type>, check: CheckState, list: ListState, bigLs: nat, t: Type, pushed: Type)
    requires check.Going? && |list.types| == check.count + bigLs && check.count <= |args|
    requires bigLs == 0 ==> list.types == args[..check.count] && pushed == t
    ensures Agree(args, Match(check, args, t), CountState(Copy, check.count + 1), list.Push(pushed), bigLs)
  {
  }

  lemma MatchesAgree(args: seq<Type>, check: CheckState, list: ListState, bigLs: nat)
    requires check.Going? && |list.types| == check.count + bigLs && check.count <= |args|
    requires bigLs == 0 ==> list.types == args[..check.count]
    ensures forall t, pushed :: (bigLs == 0 ==> pushed == t) ==>
              Agree(args, Match(check, args, t), CountState(Copy, check.count + 1), list.Push(pushed), bigLs)
  {
    forall t, pushed | bigLs == 0 ==> t == pushed
      ensures Agree(args, Match(check, args, t), CountState(Copy, check.count + 1), list.Push(pushed), bigLs)
    {
      MatchAgrees(args, check, list, bigLs, t, pushed);
    }
  }

  lemma CharIntAgrees(args: seq<Type>, check: CheckState, count: CountState, list: ListState, bigLs: nat, c: char)
    requires check.Going? && check.mode.Specifier? && Agree(args, check, count, list, bigLs)
    requires c == 'c' || c == 'd' || c == 'i'
    ensures Agree(args, CheckSpecifier(check, args, c), CountStep(count, c), ListSpecifier(list, c),
                  bigLs + if c == 'L' then 1 else 0)
  {
    MatchesAgree(args, check, list, bigLs);
  }

  lemma UnsignedAgrees(args: seq<Type>, check: CheckState, count: CountState, list: ListState, bigLs: nat, c: char)
    requires check.Going? && check.mode.Specifier? && Agree(args, check, count, list, bigLs)
    requires c == 'u' || c == 'o' || c == 'x' || c == 'X'
    ensures Agree(args, CheckSpecifier(check, args, c), CountStep(count, c), ListSpecifier(list, c),
                  bigLs + if c == 'L' then 1 else 0)
  {
    MatchesAgree(args, check, list, bigLs);
  }

  lemma FloatAgrees(args: seq<Type>, check: CheckState, count: CountState, list: ListState, bigLs: nat, c: char)
    requires check.Going? && check.mode.Specifier? && Agree(args, check, count, list, bigLs)
    requires c == 'f' || c == 'F'
    ensures Agree(args, CheckSpecifier(check, args, c), CountStep(count, c), ListSpecifier(list, c),
                  bigLs + if c == 'L' then 1 else 0)
  {
    MatchesAgree(args, check, list, bigLs);
  }

  predicate Converts(c: char) {
    || c == 'c' || c == 'd' || c == 'i' || c == 'u' || c == 'o' || c == 'x' || c == 'X' || c == 'f' || c == 'F'
  }

  lemma ModifierAgrees(args: seq<Type>, check: CheckState, count: CountState, list: ListState, bigLs: nat, c: char)
    requires check.Going? && check.mode.Specifier? && Agree(args, check, count, list, bigLs)
    requires !Converts(c)
    ensures Agree(args, CheckSpecifier(check, args, c), CountStep(count, c), ListSpecifier(list, c),
                  bigLs + if c == 'L' then 1 else 0)
  {
  }

  lemma SpecifierAgrees(args: seq<Type>, check: CheckState, count: CountState, list: ListState, bigLs: nat, c: char)
    requires check.Going? && check.mode.Specifier? && Agree(args, check, count, list, bigLs)
    ensures Agree(args, CheckSpecifier(check, args, c), CountStep(count, c), ListSpecifier(list, c),
                  bigLs + if c == 'L' then 1 else 0)
  {
    if !Converts(c) {
      ModifierAgrees(args, check, count, list, bigLs, c);
    } else if c == 'f' || c == 'F' {
      FloatAgrees(args, check, count, list, bigLs, c);
    } else if c == 'c' || c == 'd' || c == 'i' {
      CharIntAgrees(args, check, count, list, bigLs, c);
    } else {
      UnsignedAgrees(args, check, count, list, bigLs, c);
    }
  }

  lemma CustomAgrees(args: seq<Type>, check: CheckState, count: CountState, list: ListState, bigLs: nat, c: char)
    requires check.Going? && check.mode.Custom? && Agree(args, check, count, list, bigLs)
    ensures Agree(args, CheckCustom(check, args, c), CountStep(count, c), ListCustom(list, c), bigLs)
  {
    MatchesAgree(args, check, list, bigLs);
  }

  lemma {:induction false} RunAgrees(s: string, args: seq<Type>)
    ensures Agree(args, Checked(s, args), Counted(s), Listed(s), BigLs(s))
  {
    if s == [] {
    } else {
      var init, c := s[..|s| - 1], s[|s| - 1];
      RunAgrees(init, args);
      var check := Checked(init, args);
      if check.Going? && check.mode.Specifier? {
        SpecifierAgrees(args, check, Counted(init), Listed(init), BigLs(init), c);
      } else if check.Going? && check.mode.Custom? {
        CustomAgrees(args, check, Counted(init), Listed(init), BigLs(init), c);
      }
    }
  }

  /** What the check accepts: `fmt` is the characters of the string and its NUL. */
  ghost predicate Accepted(text: string, args: seq<Type>) {
    Checked(text + ['\0'], args).Going?
  }

  /** The NUL is no specifier. */
  lemma NulEnds(args: seq<Type>, check: CheckState)
    requires CheckStep(check, args, '\0').Going?
    ensures check.Going? && check.mode.Copy?
  {
  }

  lemma AcceptedEnds(text: string, args: seq<Type>)
    requires Accepted(text, args)
    ensures Checked(text, args).Going? && Checked(text, args).mode.Copy?
    ensures Counted(text + ['\0']) == Counted(text) && Listed(text + ['\0']) == Listed(text)
    ensures BigLs(text + ['\0']) == BigLs(text)
  {
    assert (text + ['\0'])[..|text|] == text;
    NulEnds(args, Checked(text, args));
    RunAgrees(text, args);
  }

  /** An accepted string has as many arguments as are counted, and its type list is the
      types of those arguments exactly when no specifier has the modifier `L`. */
  lemma AcceptedTypes(text: string, args: seq<Type>)
    requires Accepted(text, args)
    ensures var fmt := text + ['\0'];
      && Counted(fmt).count <= |args|
      && (TypeList(fmt) == args[..Counted(fmt).count] <==> BigLs(text) == 0)
  {
    AcceptedEnds(text, args);
    RunAgrees(text, args);
  }

  lemma StepExtends(st: ListState, c: char)
    ensures st.Extends(ListStep(st, c))
  {
  }

  lemma {:induction false} LengthIsTotal(s: string)
    ensures Listed(s).length == TotalSize(Listed(s).types)
  {
    if s == [] {
    } else {
      LengthIsTotal(s[..|s| - 1]);
      StepExtends(Listed(s[..|s| - 1]), s[|s| - 1]);
    }
  }

  // ----- the reader and the type list -----

  /** Characters that make the reader take an argument behind a percent sign. */
  predicate Takes(c: char) {
    || c == 'd' || c == 'i' || c == 'u' || c == 'o' || c == 'x' || c == 'X' || c == 'f' || c == 'c'
  }

  /** Characters that make the reader take an argument behind `%v`. */
  predicate TakesCustom(c: char) {
    || c == 'n' || c == 'N' || c == 'i' || c == 'I' || c == 'p' || c == 'e' || c == 'E' || c == 'g' || c == 'G'
    || c == 'v' || c == 's' || c == 'c' || c == 'm' || c == 'l'
  }

  /** The reader stays behind the percent sign of a `%c`. It leaves the text `s` that
      follows without taking an argument there, and without missing one. */
  predicate Rejoins(s: string)
    decreases |s|
  {
    if s == [] then true
    else if s[0] == 'h' || s[0] == 'l' then Rejoins(s[1..])
    else if s[0] == '%' then RejoinsAtPercent(s[1..])
    else if s[0] == 'v' then RejoinsCustom(s[1..])
    else !Takes(s[0])
  }

  /** A percent sign that the reader took for the second of two needs another one. */
  predicate RejoinsAtPercent(s: string)
    decreases |s|
  {
    s != [] && s[0] == '%' && Rejoins(s[1..])
  }

  predicate RejoinsCustom(s: string)
    decreases |s|
  {
    if s == [] then true
    else if s[0] == '%' then RejoinsAtPercent(s[1..])
    else !TakesCustom(s[0])
  }

  /** Character `i` is the end of a specifier `%c`. */
  predicate CharAt(text: string, i: nat) {
    i < |text| && text[i] == 'c' && Listed(text[..i]).mode.Specifier?
  }

  /** Every `%c` has no modifier and is followed by text from which the reader finds back. */
  ghost predicate Settled(text: string) {
    forall i :: 0 <= i < |text| && CharAt(text, i) ==> Listed(text[..i]).modifier.Plain? && Rejoins(text[i + 1..])
  }

  /** Behind every character the reader has taken what the list has up to there: every
      argument is read where it stands in the string, as the type it was stored as. */
  ghost predicate InStep(text: string) {
    forall i :: 0 <= i <= |text| ==> Same(text, i)
  }

  ghost predicate Same(text: string, i: nat)
    requires i <= |text|
  {
    ReadOver(text[..i]).read == Listed(text[..i]).types
  }

  /** What the reader has taken, `bare` floats being too short. */
  ghost predicate ReaderAgrees(list: ListState, reader: ReadState, bare: nat) {
    && (bare == 0 ==> reader.read == list.types)
    && reader.consumed <= list.length
    && (reader.consumed == list.length <==> bare == 0)
  }

  predicate Together(list: ListState, reader: ReadState) {
    list.mode == reader.mode && (!list.mode.Copy? ==> list.modifier == reader.modifier)
  }

  /** The reader took the percent sign that begins a specifier for the second of two. */
  predicate Crossed(list: ListState, reader: ReadState) {
    list.mode.Specifier? && list.modifier.Plain? && reader.mode.Copy?
  }

  /** Where the reader stands in front of the text `rest`. */
  ghost predicate Stands(list: ListState, reader: ReadState, rest: string) {
    || Together(list, reader)
    || (list.mode.Copy? && reader.mode.Specifier? && Rejoins(rest))
    || (list.mode.Copy? && reader.mode.Custom? && RejoinsCustom(rest))
    || (Crossed(list, reader) && RejoinsAtPercent(rest))
  }

  /** The check is at `check` and goes on over `c`; no `L` has been met, nor is `c` one. */
  ghost predicate GoesOn(args: seq<Type>, check: CheckState, list: ListState, c: char) {
    && check.Going? && CheckStep(check, args, c).Going?
    && check.mode == list.mode
    && (list.mode.Specifier? ==> list.modifier == check.modifier && !check.modifier.BigL? && c != 'L')
  }

  lemma StaysTogether(args: seq<Type>, check: CheckState, list: ListState, reader: ReadState, c: char)
    requires GoesOn(args, check, list, c) && Together(list, reader) && (list.mode.Specifier? ==> c != 'c')
    ensures Together(ListStep(list, c), ReadStep(reader, c))
  {
  }

  /** The reader takes less for a bare float, and nothing for `%F`. */
  lemma ReaderFloat(list: ListState, reader: ReadState, bare: nat, c: char)
    requires ReaderAgrees(list, reader, bare) && Together(list, reader) && list.mode.Specifier?
    requires c == 'f' || c == 'F'
    requires list.modifier.Plain? || list.modifier.H?
    ensures ReaderAgrees(ListSpecifier(list, c), ReadSpecifier(reader, c), bare + NewBare(list, c))
  {
  }

  lemma ReaderSpecifier(args: seq<Type>, check: CheckState, list: ListState, reader: ReadState, bare: nat, c: char)
    requires GoesOn(args, check, list, c) && list.mode.Specifier? && c != 'c'
    requires ReaderAgrees(list, reader, bare) && Together(list, reader)
    ensures ReaderAgrees(ListSpecifier(list, c), ReadSpecifier(reader, c), bare + NewBare(list, c))
  {
    if c == 'f' || c == 'F' {
      ReaderFloat(list, reader, bare, c);
    }
  }

  lemma ReaderCustom(args: seq<Type>, check: CheckState, list: ListState, reader: ReadState, bare: nat, c: char)
    requires GoesOn(args, check, list, c) && list.mode.Custom?
    requires ReaderAgrees(list, reader, bare) && Together(list, reader)
    ensures ReaderAgrees(ListCustom(list, c), ReadCustom(reader, c), bare)
  {
  }

  /** A step of a reader that is elsewhere than the list takes nothing. */
  lemma ReaderApart(list: ListState, reader: ReadState, s: string)
    requires s != [] && Stands(list, reader, s) && !Together(list, reader)
    ensures Stands(ListStep(list, s[0]), ReadStep(reader, s[0]), s[1..])
    ensures ListStep(list, s[0]).types == list.types && ListStep(list, s[0]).length == list.length
    ensures ReadStep(reader, s[0]).read == reader.read && ReadStep(reader, s[0]).consumed == reader.consumed
    ensures NewBare(list, s[0]) == 0
  {
  }

  lemma ReaderStep(args: seq<Type>, check: CheckState, list: ListState, reader: ReadState, bare: nat, s: string)
    requires s != [] && GoesOn(args, check, list, s[0])
    requires ReaderAgrees(list, reader, bare) && Stands(list, reader, s)
    requires list.mode.Specifier? && s[0] == 'c' ==> list.modifier.Plain? && Rejoins(s[1..])
    ensures ReaderAgrees(ListStep(list, s[0]), ReadStep(reader, s[0]), bare + NewBare(list, s[0]))
    ensures Stands(ListStep(list, s[0]), ReadStep(reader, s[0]), s[1..])
  {
    if !Together(list, reader) {
      ReaderApart(list, reader, s);
    } else if list.mode.Custom? {
      StaysTogether(args, check, list, reader, s[0]);
      ReaderCustom(args, check, list, reader, bare, s[0]);
    } else if list.mode.Specifier? && s[0] != 'c' {
      StaysTogether(args, check, list, reader, s[0]);
      ReaderSpecifier(args, check, list, reader, bare, s[0]);
    }
  }

  /** The prefixes of an accepted text. */
  lemma PrefixGoesOn(text: string, args: seq<Type>, i: nat)
    requires Accepted(text, args) && i < |text| && BigLs(text[..i + 1]) == 0
    ensures text[..i + 1][..i] == text[..i] && BigLs(text[..i]) == 0
    ensures GoesOn(args, Checked(text[..i], args), Listed(text[..i]), text[i])
    ensures Listed(text[..i + 1]) == ListStep(Listed(text[..i]), text[i])
    ensures ReadOver(text[..i + 1]) == ReadStep(ReadOver(text[..i]), text[i])
    ensures BareFloats(text[..i + 1]) == BareFloats(text[..i]) + NewBare(Listed(text[..i]), text[i])
  {
    AcceptedEnds(text, args);
    assert text[..i + 1][..i] == text[..i] && text[..i + 1][i] == text[i];
    if Checked(text[..i + 1], args).Returned? { StaysReturned(text, args, i + 1); }
    RunAgrees(text[..i], args);
  }

  lemma {:induction false} PrefixCounts(text: string, i: nat)
    requires i <= |text|
    ensures BigLs(text[..i]) <= BigLs(text) && BareFloats(text[..i]) <= BareFloats(text)
    decreases |text|
  {
    if i == |text| {
      assert text[..i] == text;
    } else {
      PrefixCounts(text[..|text| - 1], i);
      assert text[..|text| - 1][..i] == text[..i];
    }
  }

  lemma {:induction false} ReaderRun(text: string, args: seq<Type>, i: nat)
    requires Accepted(text, args) && BigLs(text) == 0 && Settled(text) && i <= |text|
    ensures ReaderAgrees(Listed(text[..i]), ReadOver(text[..i]), BareFloats(text[..i]))
    ensures Stands(Listed(text[..i]), ReadOver(text[..i]), text[i..])
  {
    if i == 0 {
    } else {
      ReaderRun(text, args, i - 1);
      PrefixCounts(text, i);
      PrefixGoesOn(text, args, i - 1);
      assert CharAt(text, i - 1) ==> Rejoins(text[i..]);
      assert text[i - 1..][1..] == text[i..];
      var init := text[..i - 1];
      ReaderStep(args, Checked(init, args), Listed(init), ReadOver(init), BareFloats(init), text[i - 1..]);
    }
  }

  /** For an accepted string without `L`, in which every `%c` is settled, the reader takes
      exactly the types stored, and as many bytes as the list's length, if and only if it
      contains no `%F` and no `%f` without a modifier. */
  lemma ReaderTakesWhatIsStored(text: string, args: seq<Type>)
    requires Accepted(text, args) && BigLs(text) == 0 && Settled(text)
    ensures var fmt := text + ['\0'];
      && Listed(fmt).length == TotalSize(TypeList(fmt))
      && (ReadOver(text).consumed == Listed(fmt).length <==> BareFloats(text) == 0)
      && (BareFloats(text) == 0 ==> ReadOver(text).read == TypeList(fmt))
  {
    AcceptedEnds(text, args);
    ReaderRun(text, args, |text|);
    assert text[..|text|] == text;
    LengthIsTotal(text);
    RunAgrees(text, args);
  }

  /** Whatever passes the compile-time checks, with none of these specifiers, is read back
      argument by argument from what was stored. */
  lemma StoredIsReadBack(text: string, args: seq<Type>)
    requires Accepted(text, args) && Counted(text + ['\0']).count == |args|
    requires BigLs(text) == 0 && Settled(text) && BareFloats(text) == 0
    ensures ReadOver(text).read == args && ReadOver(text).consumed == TotalSize(args)
  {
    AcceptedTypes(text, args);
    ReaderTakesWhatIsStored(text, args);
  }

  // ----- and nothing else is -----

  /** The list waits for an argument of a specifier, and the reader has left it. */
  ghost predicate Left(list: ListState, reader: ReadState, rest: string) {
    && reader.mode.Copy?
    && (list.mode.Custom? || (list.mode.Specifier? && !(list.modifier.Plain? && rest != [] && rest[0] == '%')))
  }

  lemma LeftStep(args: seq<Type>, check: CheckState, list: ListState, reader: ReadState, s: string)
    requires s != [] && GoesOn(args, check, list, s[0]) && Left(list, reader, s)
    ensures |ReadStep(reader, s[0]).read| == |reader.read|
    ensures Left(ListStep(list, s[0]), ReadStep(reader, s[0]), s[1..])
         || |ListStep(list, s[0]).types| == |list.types| + 1
  {
  }

  /** An argument that the reader has left is never made up for. */
  lemma {:induction false} LeftIsMissed(text: string, args: seq<Type>, i: nat)
    requires Accepted(text, args) && InStep(text) && BigLs(text) == 0 && i <= |text|
    ensures !Left(Listed(text[..i]), ReadOver(text[..i]), text[i..])
    decreases |text| - i
  {
    if i == |text| {
      AcceptedEnds(text, args);
      assert text[..i] == text;
      RunAgrees(text, args);
    } else {
      PrefixCounts(text, i + 1);
      PrefixGoesOn(text, args, i);
      LeftIsMissed(text, args, i + 1);
      assert Same(text, i) && Same(text, i + 1) && text[i..][1..] == text[i + 1..];
      if Left(Listed(text[..i]), ReadOver(text[..i]), text[i..]) {
        LeftStep(args, Checked(text[..i], args), Listed(text[..i]), ReadOver(text[..i]), text[i..]);
      }
    }
  }

  /** The reader finds back from where it stands, while the list copies. */
  ghost predicate Back(reader: ReadState, rest: string) {
    && (reader.mode.Specifier? ==> Rejoins(rest))
    && (reader.mode.Custom? ==> RejoinsCustom(rest))
  }

  lemma BackStep(list: ListState, reader: ReadState, s: string)
    requires s != [] && s[0] != '%' && list.mode.Copy? && !reader.modifier.BigL?
    requires !reader.mode.Copy? && ReadStep(reader, s[0]).read == reader.read
    requires Back(ReadStep(reader, s[0]), s[1..])
    ensures ListStep(list, s[0]) == list && Back(reader, s)
  {
  }

  lemma PercentStep(list: ListState, reader: ReadState)
    requires list.mode.Copy? && !reader.mode.Copy?
    ensures Crossed(ListStep(list, '%'), ReadStep(reader, '%'))
  {
  }

  lemma SecondPercentStep(list: ListState, reader: ReadState)
    requires Crossed(list, reader)
    ensures ListStep(list, '%').mode.Copy? && ReadStep(reader, '%').mode.Specifier?
  {
  }

  lemma PercentIsDoubled(text: string, args: seq<Type>, i: nat)
    requires Accepted(text, args) && InStep(text) && BigLs(text) == 0 && i <= |text|
    requires Crossed(Listed(text[..i]), ReadOver(text[..i]))
    ensures i < |text| && text[i] == '%'
    ensures Listed(text[..i + 1]).mode.Copy? && ReadOver(text[..i + 1]).mode.Specifier?
  {
    LeftIsMissed(text, args, i);
    PrefixCounts(text, i + 1);
    PrefixGoesOn(text, args, i);
    SecondPercentStep(Listed(text[..i]), ReadOver(text[..i]));
  }

  /** A reader that takes nothing it should not finds back from where it stands. */
  lemma {:induction false} HasRejoined(text: string, args: seq<Type>, i: nat)
    requires Accepted(text, args) && InStep(text) && BigLs(text) == 0 && i <= |text|
    requires Listed(text[..i]).mode.Copy?
    ensures Back(ReadOver(text[..i]), text[i..])
    decreases |text| - i
  {
    if i == |text| || ReadOver(text[..i]).mode.Copy? {
    } else if text[i] == '%' {
      PrefixCounts(text, i + 1);
      PrefixGoesOn(text, args, i);
      PercentStep(Listed(text[..i]), ReadOver(text[..i]));
      PercentIsDoubled(text, args, i + 1);
      HasRejoined(text, args, i + 2);
      assert text[i..][1..] == text[i + 1..] && text[i + 1..][1..] == text[i + 2..];
      assert RejoinsAtPercent(text[i + 1..]);
    } else {
      PrefixCounts(text, i + 1);
      PrefixGoesOn(text, args, i);
      assert Same(text, i) && Same(text, i + 1) && text[i..][1..] == text[i + 1..];
      CopyTakesNone(Listed(text[..i]), text[i]);
      HasRejoined(text, args, i + 1);
      BackStep(Listed(text[..i]), ReadOver(text[..i]), text[i..]);
    }
  }

  lemma CopyTakesNone(list: ListState, c: char)
    requires list.mode.Copy? && c != '%'
    ensures ListStep(list, c) == list
  {
  }

  /** The places of a reader that is in step. */
  predicate Near(list: ListState, reader: ReadState) {
    || Together(list, reader)
    || (list.mode.Copy? && !reader.mode.Copy?)
    || Crossed(list, reader)
  }

  /** A float that is read as what was stored is not a bare one. */
  lemma FloatIsNotBare(list: ListState, reader: ReadState, c: char)
    requires (c == 'f' || c == 'F') && Together(list, reader) && list.mode.Specifier?
    requires list.modifier.Plain? || list.modifier.H?
    requires reader.read == list.types && ReadSpecifier(reader, c).read == ListSpecifier(list, c).types
    ensures NewBare(list, c) == 0
  {
    var n := |list.types|;
    assert ListSpecifier(list, c).types[n] == ReadSpecifier(reader, c).read[n];
  }

  lemma NearStep(args: seq<Type>, check: CheckState, list: ListState, reader: ReadState, s: string)
    requires s != [] && GoesOn(args, check, list, s[0]) && Near(list, reader) && !Left(list, reader, s)
    requires reader.read == list.types && ReadStep(reader, s[0]).read == ListStep(list, s[0]).types
    ensures Near(ListStep(list, s[0]), ReadStep(reader, s[0])) && NewBare(list, s[0]) == 0
  {
    if !Together(list, reader) {
    } else if list.mode.Specifier? && s[0] == 'c' {
    } else {
      StaysTogether(args, check, list, reader, s[0]);
      if list.mode.Specifier? && (s[0] == 'f' || s[0] == 'F') {
        FloatIsNotBare(list, reader, s[0]);
      }
    }
  }

  lemma {:induction false} StaysNear(text: string, args: seq<Type>, i: nat)
    requires Accepted(text, args) && InStep(text) && BigLs(text) == 0 && i <= |text|
    ensures Near(Listed(text[..i]), ReadOver(text[..i])) && BareFloats(text[..i]) == 0
  {
    if i == 0 {
    } else {
      StaysNear(text, args, i - 1);
      PrefixCounts(text, i);
      PrefixGoesOn(text, args, i - 1);
      LeftIsMissed(text, args, i - 1);
      assert Same(text, i - 1) && Same(text, i);
      var init := text[..i - 1];
      NearStep(args, Checked(init, args), Listed(init), ReadOver(init), text[i - 1..]);
    }
  }

  lemma BigLIsNotRead(list: ListState, reader: ReadState)
    requires list.mode.Specifier?
    ensures |ListStep(list, 'L').types| == |list.types| + 1 && ReadStep(reader, 'L').read == reader.read
  {
  }

  /** The entry for a modifier `L` is in no reader's list. */
  lemma {:induction false} InStepHasNoL(text: string, args: seq<Type>, i: nat)
    requires Checked(text, args).Going? && InStep(text) && i <= |text|
    ensures BigLs(text[..i]) == 0
  {
    if i == 0 {
    } else {
      InStepHasNoL(text, args, i - 1);
      if Checked(text[..i - 1], args).Returned? { StaysReturned(text, args, i - 1); }
      RunAgrees(text[..i - 1], args);
      assert Same(text, i - 1) && Same(text, i) && text[..i][..i - 1] == text[..i - 1];
      if Listed(text[..i - 1]).mode.Specifier? {
        BigLIsNotRead(Listed(text[..i - 1]), ReadOver(text[..i - 1]));
      }
    }
  }

  /** Only a `%c` without a modifier is stored as the one byte that is read. */
  lemma CharIsPlain(args: seq<Type>, check: CheckState, list: ListState, reader: ReadState, s: string)
    requires s != [] && s[0] == 'c' && list.mode.Specifier? && GoesOn(args, check, list, s[0])
    requires Near(list, reader) && !Left(list, reader, s)
    requires reader.read == list.types && ReadStep(reader, s[0]).read == ListStep(list, s[0]).types
    ensures list.modifier.Plain? && ListStep(list, s[0]).mode.Copy? && ReadStep(reader, s[0]).mode.Specifier?
  {
    var n := |list.types|;
    assert ListStep(list, s[0]).types[n] == ReadStep(reader, s[0]).read[n];
  }

  lemma InStepIsSettled(text: string, args: seq<Type>, i: nat)
    requires Accepted(text, args) && InStep(text) && BigLs(text) == 0 && CharAt(text, i)
    ensures Listed(text[..i]).modifier.Plain? && Rejoins(text[i + 1..])
  {
    PrefixCounts(text, i + 1);
    PrefixGoesOn(text, args, i);
    StaysNear(text, args, i);
    LeftIsMissed(text, args, i);
    assert Same(text, i) && Same(text, i + 1);
    CharIsPlain(args, Checked(text[..i], args), Listed(text[..i]), ReadOver(text[..i]), text[i..]);
    HasRejoined(text, args, i + 1);
  }

  /** Exactly when the reader is in step with what was stored, for every accepted string:
      no `L`, no bare float, and every `%c` settled. */
  lemma InStepIff(text: string, args: seq<Type>)
    requires Accepted(text, args)
    ensures InStep(text) <==> BigLs(text) == 0 && BareFloats(text) == 0 && Settled(text)
  {
    if InStep(text) {
      assert text[..|text|] == text;
      AcceptedEnds(text, args);
      InStepHasNoL(text, args, |text|);
      StaysNear(text, args, |text|);
      forall i | 0 <= i < |text| && CharAt(text, i)
        ensures Listed(text[..i]).modifier.Plain? && Rejoins(text[i + 1..])
      {
        InStepIsSettled(text, args, i);
      }
    }
    if BigLs(text) == 0 && BareFloats(text) == 0 && Settled(text) {
      forall i | 0 <= i <= |text| ensures Same(text, i) {
        PrefixCounts(text, i);
        ReaderRun(text, args, i);
      }
    }
  }

  /** The check, the list and the reader behind `i` characters. */
  ghost predicate After(text: string, args: seq<Type>, i: nat, check: CheckState, list: ListState, reader: ReadState) {
    i <= |text| && Checked(text[..i], args) == check && Listed(text[..i]) == list && ReadOver(text[..i]) == reader
  }

  lemma OneMore(text: string, args: seq<Type>, i: nat, check: CheckState, list: ListState, reader: ReadState)
    requires After(text, args, i, check, list, reader) && i < |text|
    ensures After(text, args, i + 1, CheckStep(check, args, text[i]), ListStep(list, text[i]), ReadStep(reader, text[i]))
  {
    assert text[..i + 1][..i] == text[..i];
  }

  lemma AfterAll(text: string, args: seq<Type>, check: CheckState, list: ListState, reader: ReadState)
    requires After(text, args, |text|, check, list, reader) && CheckStep(check, args, '\0').Going?
    ensures Accepted(text, args) && Listed(text) == list && ReadOver(text) == reader
  {
    assert text[..|text|] == text == (text + ['\0'])[..|text|];
  }

  /** Any text that begins with a `%c`. */
  lemma AfterChar(text: string, args: seq<Type>)
    requires |text| >= 2 && text[0] == '%' && text[1] == 'c' && |args| >= 1 && args[0] == Int8
    ensures After(text, args, 2, Going(Copy, Plain, 1), ListState(Copy, Plain, [Int8], 1), ReadState(Specifier, Plain, [Int8], 1))
  {
    OneMore(text, args, 0, Going(Copy, Plain, 0), ListState(Copy, Plain, [], 0), ReadState(Copy, Plain, [], 0));
    OneMore(text, args, 1, Going(Specifier, Plain, 0), ListState(Specifier, Plain, [], 0), ReadState(Specifier, Plain, [], 0));
  }

  /** The reader takes a percent sign behind the `%c` for the second of two. */
  lemma AfterCharPercent(text: string, args: seq<Type>)
    requires |text| >= 3 && text[0] == '%' && text[1] == 'c' && text[2] == '%' && |args| >= 1 && args[0] == Int8
    ensures After(text, args, 3, Going(Specifier, Plain, 1), ListState(Specifier, Plain, [Int8], 1), ReadState(Copy, Plain, [Int8], 1))
  {
    AfterChar(text, args);
    OneMore(text, args, 2, Going(Copy, Plain, 1), ListState(Copy, Plain, [Int8], 1), ReadState(Specifier, Plain, [Int8], 1));
  }

  lemma NumberIsSkipped(args: seq<Type>)
    requires args == [Int8, Int32]
    ensures CheckStep(Going(Specifier, Plain, 1), args, 'd') == Going(Copy, Plain, 2)
    ensures ListStep(ListState(Specifier, Plain, [Int8], 1), 'd') == ListState(Copy, Plain, args, 5)
    ensures ReadStep(ReadState(Copy, Plain, [Int8], 1), 'd') == ReadState(Copy, Plain, [Int8], 1)
  {
    assert [Int8] + [Int32] == args;
  }

  /** A `%c` from which the reader does not find back: it takes the next percent sign for
      the second of two, and leaves the four bytes of a number unread. */
  lemma CharIsMisread(text: string, args: seq<Type>)
    requires text == "%c%d" && args == [Int8, Int32]
    ensures Accepted(text, args) && Listed(text).length == 5 && ReadOver(text).consumed == 1
  {
    AfterCharPercent(text, args);
    OneMore(text, args, 3, Going(Specifier, Plain, 1), ListState(Specifier, Plain, [Int8], 1), ReadState(Copy, Plain, [Int8], 1));
    NumberIsSkipped(args);
    AfterAll(text, args, Going(Copy, Plain, 2), ListState(Copy, Plain, args, 5), ReadState(Copy, Plain, [Int8], 1));
  }

  /** The right types may be read by accident, one of them too early: `InStep` looks behind
      every character. */
  lemma ReadByAccident(text: string, args: seq<Type>)
    requires text == "%cc%c" && args == [Int8, Int8]
    ensures Accepted(text, args) && ReadOver(text).read == args && !InStep(text)
  {
    AfterChar(text, args);
    OneMore(text, args, 2, Going(Copy, Plain, 1), ListState(Copy, Plain, [Int8], 1), ReadState(Specifier, Plain, [Int8], 1));
    assert !Same(text, 3);
    OneMore(text, args, 3, Going(Copy, Plain, 1), ListState(Copy, Plain, [Int8], 1), ReadState(Specifier, Plain, args, 2));
    OneMore(text, args, 4, Going(Specifier, Plain, 1), ListState(Specifier, Plain, [Int8], 1), ReadState(Copy, Plain, args, 2));
    AfterAll(text, args, Going(Copy, Plain, 2), ListState(Copy, Plain, args, 2), ReadState(Copy, Plain, args, 2));
  }
}
