/** The JSON printer and parser as imperative code: strings built by appending, and an
    offset that the parsing methods advance. */
module JsonCode {
  import opened Basics
  import opened JsonText
  import P = JsonParse

  // ----- printing -----

  lemma {:induction false} EscapeSnoc(s: string, c: char)
    ensures Escape(s + [c]) == Escape(s) + EscapedChar(c)
  {
    if s == [] {
      assert s + [c] == [c] && Escape([c]) == EscapedChar(c) + Escape([]);
    } else {
      assert (s + [c])[1..] == s[1..] + [c];
      EscapeSnoc(s[1..], c);
    }
  }

  method JsonEscape(s: string) returns (output: string)
    ensures output == Escape(s)
  {
    output := [];
    for i := 0 to |s|
      invariant output == Escape(s[..i])
    {
      assert s[..i + 1] == s[..i] + [s[i]];
      EscapeSnoc(s[..i], s[i]);
      output := output + EscapedChar(s[i]);
    }
    assert s[..|s|] == s;
  }

  method MakePad(depth: nat) returns (pad: string)
    ensures pad == Pad(depth)
  {
    pad := [];
    for i := 0 to depth
      invariant pad == Pad(i)
    {
      PadSnoc(i);
      pad := pad + "  ";
    }
  }

  lemma {:induction false} PadSnoc(depth: nat)
    ensures Pad(depth + 1) == Pad(depth) + "  "
  {
    if depth == 0 {
    } else {
      PadSnoc(depth - 1);
    }
  }

  /** `dump` */
  method DumpValue(v: JSON, depth: nat) returns (text: string)
    ensures text == Dump(v, depth)
    decreases v, 1
  {
    match v {
      case Null => text := "null";
      case Bool(b) => text := if b then "true" else "false";
      case Int(n) => text := IntText(n);
      case Str(s) =>
        var escaped := JsonEscape(s);
        text := "\"" + escaped + "\"";
      case Arr(items) =>
        var body := DumpArray(items, depth + 1);
        text := "[" + body + "]";
      case Obj(fields) =>
        var body := DumpObject(fields, depth);
        var pad := MakePad(if depth == 0 then 0 else depth - 1);
        text := "{\n" + body + "\n" + pad + "}";
    }
  }

  /** One turn of the loop over the items. */
  lemma DumpItemsTurn(text: string, items: seq<JSON>, depth: nat, i: nat)
    requires i < |items|
    ensures text + DumpItems(items[i..], depth)
         == (text + Dump(items[i], depth)) + (if i + 1 < |items| then ", " else []) + DumpItems(items[i + 1..], depth)
  {
    assert items[i..][1..] == items[i + 1..];
    if i + 1 == |items| {
      assert items[i + 1..] == [];
    }
  }

  method DumpArray(items: seq<JSON>, depth: nat) returns (text: string)
    ensures text == DumpItems(items, depth)
    decreases items, 0
  {
    text := [];
    assert items[0..] == items;
    for i := 0 to |items|
      invariant DumpItems(items, depth)
             == text + (if 0 < i < |items| then ", " else []) + DumpItems(items[i..], depth)
    {
      if i > 0 {
        text := text + ", ";
      }
      var item := DumpValue(items[i], depth);
      DumpItemsTurn(text, items, depth, i);
      text := text + item;
    }
  }

  /** One turn of the loop over the fields. */
  lemma DumpFieldsTurn(text: string, fields: seq<Field>, depth: nat, i: nat)
    requires i < |fields|
    ensures text + DumpFields(fields[i..], depth)
         == (text + DumpField(fields[i], depth)) + (if i + 1 < |fields| then ",\n" else []) + DumpFields(fields[i + 1..], depth)
  {
    assert fields[i..][1..] == fields[i + 1..];
    if i + 1 == |fields| {
      assert fields[i + 1..] == [];
    }
  }

  method DumpObject(fields: seq<Field>, depth: nat) returns (text: string)
    ensures text == DumpFields(fields, depth)
    decreases fields, 0
  {
    var pad := MakePad(depth);
    text := [];
    assert fields[0..] == fields;
    for i := 0 to |fields|
      invariant DumpFields(fields, depth)
             == text + (if 0 < i < |fields| then ",\n" else []) + DumpFields(fields[i..], depth)
    {
      if i > 0 {
        text := text + ",\n";
      }
      var value := DumpValue(fields[i].value, depth + 1);
      DumpFieldsTurn(text, fields, depth, i);
      text := text + (pad + "\"" + fields[i].key + "\" : " + value);
    }
  }

  // ----- parsing -----

  /** What is left of the text at an offset. */
  function Left(s: string, offset: nat): P.Rest {
    if offset <= |s| then P.At(s[offset..]) else P.Beyond
  }

  /** What a parsing method has returned. */
  function Returned(s: string, ok: bool, value: JSON, offset: nat): P.Result {
    if ok then P.Done(value, Left(s, offset)) else P.Outside
  }

  /** `str[offset]` */
  function CharAt(s: string, offset: nat): char
    requires offset <= |s|
  {
    if offset == |s| then '\0' else s[offset]
  }

  method ConsumeWs(s: string, start: nat) returns (offset: nat)
    requires start <= |s|
    ensures start <= offset <= |s| && s[offset..] == P.Ws(s[start..])
  {
    offset := start;
    while P.IsSpace(CharAt(s, offset))
      invariant start <= offset <= |s| && P.Ws(s[offset..]) == P.Ws(s[start..])
      decreases |s| - offset
    {
      assert s[offset..][1..] == s[offset + 1..];
      offset := offset + 1;
    }
  }

  /** `parse_string` from the opening quote on */
  method ParseString(s: string, start: nat) returns (ok: bool, value: JSON, offset: nat)
    requires start < |s|
    ensures Returned(s, ok, value, offset) == P.StringBody(s[start + 1..], [])
  {
    var val := [];
    offset := start + 1;
    while true
      invariant start < offset <= |s| && P.StringBody(s[offset..], val) == P.StringBody(s[start + 1..], [])
      decreases |s| - offset
    {
      var t := s[offset..];
      if t == [] {
        return false, Null, offset;
      } else if t[0] == '\"' {
        return true, Str(val), offset + 1;
      } else if t[0] != '\\' {
        val := val + [t[0]];
        offset := offset + 1;
      } else if |t| == 1 {
        return false, Null, offset;
      } else if t[1] != 'u' {
        val := val + P.Unescaped(t[1]);
        offset := offset + 2;
      } else if P.FourHexDigits(t[2..]) {
        val := val + "\\u" + t[2..6];
        offset := offset + 6;
      } else {
        return true, Str([]), offset + 1;
      }
    }
  }

  /** `parse_number` */
  method ParseNumber(s: string, start: nat) returns (ok: bool, value: JSON, offset: nat)
    requires start <= |s|
    ensures Returned(s, ok, value, offset) == P.NumberBody(s[start..], [])
  {
    var val := [];
    offset := start;
    while offset < |s| && (s[offset] == '-' || P.IsDecimal(s[offset]))
      invariant start <= offset <= |s| && P.NumberBody(s[offset..], val) == P.NumberBody(s[start..], [])
    {
      assert s[offset..][1..] == s[offset + 1..];
      val := val + [s[offset]];
      offset := offset + 1;
    }
    var c := CharAt(s, offset);
    if c == '.' || c == 'E' || c == 'e' {
      return false, Null, offset;
    }
    if !P.EndsNumber(c) {
      return true, Null, offset + 1;
    }
    var n := P.Stol(val);
    if n == None {
      return false, Null, offset;
    }
    return true, Int(n.value), offset;
  }

  /** `parse_next` */
  method ParseNext(s: string, start: nat) returns (ok: bool, value: JSON, offset: nat)
    requires start <= |s|
    ensures Returned(s, ok, value, offset) == P.ParseNext(s[start..])
    decreases |s| - start, 1
  {
    offset := ConsumeWs(s, start);
    var c := CharAt(s, offset);
    if offset == |s| {
      return true, Null, offset;
    } else if c == '[' {
      ok, value, offset := ParseArray(s, offset);
    } else if c == '{' {
      ok, value, offset := ParseObject(s, offset);
    } else if c == '\"' {
      ok, value, offset := ParseString(s, offset);
    } else if c == 't' || c == 'f' {
      ok, value, offset := ParseBool(s, offset);
    } else if c == 'n' {
      ok, value, offset := ParseNull(s, offset);
    } else if P.IsDecimal(c) || c == '-' {
      ok, value, offset := ParseNumber(s, offset);
    } else {
      return true, Null, offset;
    }
  }

  method ParseBool(s: string, start: nat) returns (ok: bool, value: JSON, offset: nat)
    requires start <= |s|
    ensures Returned(s, ok, value, offset) == P.ParseBool(s[start..])
  {
    var t := s[start..];
    if |t| >= 4 && t[..4] == "true" {
      return true, Bool(true), start + 4;
    }
    if |t| >= 5 && t[..5] == "false" {
      return true, Bool(false), start + 5;
    }
    return true, Null, start;
  }

  method ParseNull(s: string, start: nat) returns (ok: bool, value: JSON, offset: nat)
    requires start <= |s|
    ensures Returned(s, ok, value, offset) == P.ParseNull(s[start..])
  {
    var t := s[start..];
    if |t| >= 4 && t[..4] == "null" {
      return true, Null, start + 4;
    }
    return true, Null, start;
  }

  /** One turn of the loop of `parse_array`: an item, and a comma or the end. */
  method ParseItem(s: string, start: nat, items: seq<JSON>)
    returns (more: bool, items': seq<JSON>, ok: bool, value: JSON, offset: nat)
    requires start <= |s|
    ensures more ==> start < offset <= |s| && P.Items(s[offset..], items') == P.Items(s[start..], items)
    ensures !more ==> Returned(s, ok, value, offset) == P.Items(s[start..], items)
    decreases |s| - start, 2
  {
    var item;
    ok, item, offset := ParseNext(s, start);
    if !ok || offset > |s| {
      return false, items, false, Null, offset;
    }
    items' := items + [item];
    offset := ConsumeWs(s, offset);
    if offset < |s| {
      assert s[offset..][1..] == s[offset + 1..];
    }
    if CharAt(s, offset) == ',' {
      return true, items', true, Null, offset + 1;
    } else if CharAt(s, offset) == ']' {
      return false, items', true, Arr(items'), offset + 1;
    }
    return false, items', true, Arr([]), offset;
  }

  /** `parse_array` */
  method ParseArray(s: string, start: nat) returns (ok: bool, value: JSON, offset: nat)
    requires start < |s|
    ensures Returned(s, ok, value, offset) == P.ParseArray(P.Ws(s[start..][1..]))
    decreases |s| - start, 0
  {
    assert s[start..][1..] == s[start + 1..];
    offset := ConsumeWs(s, start + 1);
    if CharAt(s, offset) == ']' {
      assert s[offset..][1..] == s[offset + 1..];
      return true, Arr([]), offset + 1;
    }
    var items: seq<JSON> := [];
    ghost var begin := offset;
    while true
      invariant start < offset <= |s| && P.Items(s[offset..], items) == P.Items(s[begin..], [])
      decreases |s| - offset
    {
      var more;
      more, items, ok, value, offset := ParseItem(s, offset, items);
      if !more {
        return;
      }
    }
  }

  /** A key, and its colon. */
  method ParseKey(s: string, start: nat, ghost fields: seq<Field>)
    returns (colon: bool, key: string, ok: bool, offset: nat)
    requires start <= |s|
    ensures colon ==> start < offset <= |s|
    ensures colon ==> P.MemberValue(s[offset..], fields, key) == P.Members(s[start..], fields)
    ensures !colon ==> Returned(s, ok, Obj(fields), offset) == P.Members(s[start..], fields)
    decreases |s| - start, 2
  {
    var k;
    ok, k, offset := ParseNext(s, start);
    if !ok || offset > |s| {
      return false, [], false, offset;
    }
    offset := ConsumeWs(s, offset);
    if CharAt(s, offset) != ':' {
      return false, [], true, offset;
    }
    assert s[offset..][1..] == s[offset + 1..];
    offset := ConsumeWs(s, offset + 1);
    return true, P.KeyText(k), true, offset;
  }

  /** Behind a member: a comma or the end. */
  method EndMember(s: string, start: nat, fields: seq<Field>) returns (more: bool, offset: nat)
    requires start <= |s|
    ensures more ==> start < offset <= |s| && P.Members(s[offset..], fields) == P.MembersNext(P.Ws(s[start..]), fields)
    ensures !more ==> Returned(s, true, Obj(fields), offset) == P.MembersNext(P.Ws(s[start..]), fields)
  {
    offset := ConsumeWs(s, start);
    if offset < |s| {
      assert s[offset..][1..] == s[offset + 1..];
    }
    if CharAt(s, offset) == ',' {
      return true, offset + 1;
    } else if CharAt(s, offset) == '}' {
      return false, offset + 1;
    }
    return false, offset;
  }

  /** A value, and a comma or the end. */
  method ParseMember(s: string, start: nat, fields: seq<Field>, key: string)
    returns (more: bool, fields': seq<Field>, ok: bool, value: JSON, offset: nat)
    requires start <= |s|
    ensures more ==> start < offset <= |s| && P.Members(s[offset..], fields') == P.MemberValue(s[start..], fields, key)
    ensures !more ==> Returned(s, ok, value, offset) == P.MemberValue(s[start..], fields, key)
    decreases |s| - start, 2
  {
    var v;
    ok, v, offset := ParseNext(s, start);
    if !ok || offset > |s| {
      return false, fields, false, Null, offset;
    }
    fields' := Put(fields, key, v);
    more, offset := EndMember(s, offset, fields');
    value := if more then Null else Obj(fields');
  }

  /** `parse_object` */
  method ParseObject(s: string, start: nat) returns (ok: bool, value: JSON, offset: nat)
    requires start < |s|
    ensures Returned(s, ok, value, offset) == P.ParseObject(P.Ws(s[start..][1..]))
    decreases |s| - start, 0
  {
    assert s[start..][1..] == s[start + 1..];
    offset := ConsumeWs(s, start + 1);
    if CharAt(s, offset) == '}' {
      assert s[offset..][1..] == s[offset + 1..];
      return true, Obj([]), offset + 1;
    }
    var fields: seq<Field> := [];
    ghost var begin := offset;
    while true
      invariant start < offset <= |s| && P.Members(s[offset..], fields) == P.Members(s[begin..], [])
      decreases |s| - offset
    {
      var colon, key;
      colon, key, ok, offset := ParseKey(s, offset, fields);
      if !colon {
        return ok, Obj(fields), offset;
      }
      var more;
      more, fields, ok, value, offset := ParseMember(s, offset, fields, key);
      if !more {
        return;
      }
    }
  }

  /** `JSON::Load` */
  method LoadText(s: string) returns (r: Option<JSON>)
    ensures r == P.Load(s)
  {
    assert s[0..] == s;
    var ok, value, offset := ParseNext(s, 0);
    r := if ok then Some(value) else None;
  }
}
