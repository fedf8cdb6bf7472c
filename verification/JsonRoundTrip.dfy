/** Parsing undoes printing, for every value that is not a bare number and whose object keys
    are in escaped form; and for no other. */
module JsonRoundTrip {
  import opened Basics
  import opened NumberText
  import opened JsonText
  import opened JsonParse

  // ----- strings -----

  lemma UnescapeChar(c: char, rest: string, val: string)
    ensures StringBody(EscapedChar(c) + rest, val) == StringBody(rest, val + [c])
  {
    var t := EscapedChar(c) + rest;
    if |EscapedChar(c)| == 2 {
      assert t[2..] == rest;
    } else {
      assert t[1..] == rest;
    }
  }

  lemma {:induction false} Unescape(s: string, rest: string, val: string)
    ensures StringBody(Escape(s) + rest, val) == StringBody(rest, val + s)
    decreases |s|
  {
    if s == [] {
      assert Escape(s) + rest == rest && val + s == val;
    } else {
      Associate(EscapedChar(s[0]), Escape(s[1..]), rest);
      UnescapeChar(s[0], Escape(s[1..]) + rest, val);
      Unescape(s[1..], rest, val + [s[0]]);
      Associate(val, [s[0]], s[1..]);
      assert [s[0]] + s[1..] == s;
    }
  }

  lemma ParseQuoted(s: string, rest: string)
    ensures ParseNext("\"" + Escape(s) + "\"" + rest) == Done(Str(s), At(rest))
  {
    var t := "\"" + Escape(s) + "\"" + rest;
    assert t[1..] == Escape(s) + ("\"" + rest);
    Unescape(s, "\"" + rest, []);
    assert [] + s == s;
    assert ("\"" + rest)[1..] == rest;
  }

  // ----- numbers -----

  predicate AllDecimal(s: string) {
    forall i :: 0 <= i < |s| ==> IsDecimal(s[i])
  }

  lemma {:induction false} DigitsAreDecimal(n: nat)
    ensures AllDecimal(Digits(n, Decimal, Lower)) && Magnitude(Digits(n, Decimal, Lower)) == n
    decreases n
  {
    var d := Digits(n, Decimal, Lower);
    assert d[..|d| - 1] == Leading(n, Decimal, Lower);
    if n < 10 {
    } else {
      DigitsAreDecimal(n / 10);
    }
  }

  lemma {:induction false} LeadingAll(s: string)
    requires AllDecimal(s)
    ensures LeadingDigits(s) == s
  {
    if s == [] {
    } else {
      LeadingAll(s[1..]);
    }
  }

  lemma StolOfDigits(d: string)
    requires d != [] && AllDecimal(d)
    ensures Magnitude(d) < 0x8000_0000_0000_0000 ==> Stol(d) == Some(Magnitude(d))
    ensures Magnitude(d) <= 0x8000_0000_0000_0000 ==> Stol("-" + d) == Some(0 - Magnitude(d))
  {
    LeadingAll(d);
    assert IsDecimal(d[0]) && ("-" + d)[1..] == d;
  }

  lemma StolOfText(n: Long)
    ensures Stol(IntText(n)) == Some(n)
  {
    DigitsAreDecimal(AbsoluteValue(n));
    StolOfDigits(Digits(AbsoluteValue(n), Decimal, Lower));
  }

  lemma {:induction false} NumberChars(text: string, rest: string, val: string)
    requires forall i :: 0 <= i < |text| ==> text[i] == '-' || IsDecimal(text[i])
    ensures NumberBody(text + rest, val) == NumberBody(rest, val + text)
    decreases |text|
  {
    if text == [] {
      assert text + rest == rest && val + text == val;
    } else {
      assert (text + rest)[1..] == text[1..] + rest;
      NumberChars(text[1..], rest, val + [text[0]]);
      assert val + [text[0]] + text[1..] == val + text;
    }
  }

  /** What must come behind a number. */
  predicate Terminated(rest: string) {
    rest != [] && (IsBlank(rest[0]) || rest[0] == ',' || rest[0] == ']' || rest[0] == '}')
  }

  /** A blank, a tab or a line end. */
  predicate IsBlank(c: char) {
    c in [' ', '\t', '\n', 11 as char, 12 as char, '\r']
  }

  lemma NumberIsPlain(n: Long)
    ensures var text := IntText(n);
      text != [] && forall i :: 0 <= i < |text| ==> text[i] == '-' || IsDecimal(text[i])
  {
    DigitsAreDecimal(AbsoluteValue(n));
  }

  lemma NumberStarts(t: string)
    requires t != [] && (t[0] == '-' || IsDecimal(t[0]))
    ensures ParseNext(t) == NumberBody(t, [])
  {
    assert Ws(t) == t;
  }

  lemma NumberEnds(n: Long, rest: string)
    ensures Terminated(rest) ==> NumberBody(rest, IntText(n)) == Done(Int(n), At(rest))
    ensures rest == [] ==> NumberBody(rest, IntText(n)) == Done(Null, Beyond)
  {
    StolOfText(n);
  }

  lemma ParseInt(n: Long, rest: string)
    ensures Terminated(rest) ==> ParseNext(IntText(n) + rest) == Done(Int(n), At(rest))
    ensures rest == [] ==> ParseNext(IntText(n) + rest) == Done(Null, Beyond)
  {
    var text := IntText(n);
    NumberIsPlain(n);
    NumberChars(text, rest, []);
    assert [] + text == text;
    NumberStarts(text + rest);
    NumberEnds(n, rest);
  }

  // ----- white space -----

  lemma {:induction false} WsSkips(w: string, t: string)
    requires forall i :: 0 <= i < |w| ==> IsSpace(w[i])
    ensures Ws(w + t) == Ws(t)
    decreases |w|
  {
    if w == [] {
      assert w + t == t;
    } else {
      assert (w + t)[1..] == w[1..] + t;
      WsSkips(w[1..], t);
    }
  }

  lemma NoWs(t: string)
    requires t == [] || !IsSpace(t[0])
    ensures Ws(t) == t
  {
  }

  lemma ParseSkips(w: string, t: string)
    requires forall i :: 0 <= i < |w| ==> IsSpace(w[i])
    ensures ParseNext(w + t) == ParseNext(t)
  {
    WsSkips(w, t);
  }

  /** A printed value does not begin with white space, nor is it empty. */
  lemma DumpStarts(v: JSON, depth: nat)
    ensures Dump(v, depth) != [] && !IsSpace(Dump(v, depth)[0])
    ensures Dump(v, depth)[0] != ']' && Dump(v, depth)[0] != '}'
  {
    if v.Int? {
      NumberIsPlain(v.n);
    }
  }

  // ----- the steps of the parser -----

  lemma ItemStep(t: string, v: JSON, rest: string, done: seq<JSON>)
    requires ParseNext(t) == Done(v, At(rest)) && Ws(rest) == rest
    ensures Items(t, done) == ItemsNext(rest, done + [v])
  {
  }

  lemma ItemsComma(t: string, done: seq<JSON>)
    ensures ItemsNext("," + t, done) == Items(t, done)
  {
    assert ("," + t)[1..] == t;
  }

  lemma ItemsClose(t: string, done: seq<JSON>)
    ensures ItemsNext("]" + t, done) == Done(Arr(done), At(t))
  {
    assert ("]" + t)[1..] == t;
  }

  lemma ItemsSkip(w: string, t: string, done: seq<JSON>)
    requires forall i :: 0 <= i < |w| ==> IsSpace(w[i])
    ensures Items(w + t, done) == Items(t, done)
  {
    ParseSkips(w, t);
  }

  lemma ArrayStarts(t: string)
    ensures ParseNext("[" + t) == ParseArray(Ws(t))
  {
    NoWs("[" + t);
    assert ("[" + t)[1..] == t;
  }

  lemma KeyStep(t: string, key: JSON, rest: string, done: seq<Field>)
    requires ParseNext(t) == Done(key, At(rest))
    ensures Members(t, done) == MemberColon(Ws(rest), done, KeyText(key))
  {
  }

  lemma ColonStep(t: string, done: seq<Field>, key: string)
    ensures MemberColon(":" + t, done, key) == MemberValue(Ws(t), done, key)
  {
    assert (":" + t)[1..] == t;
  }

  lemma ValueStep(t: string, v: JSON, rest: string, done: seq<Field>, key: string)
    requires ParseNext(t) == Done(v, At(rest))
    ensures MemberValue(t, done, key) == MembersNext(Ws(rest), Put(done, key, v))
  {
  }

  lemma MembersComma(t: string, done: seq<Field>)
    ensures MembersNext("," + t, done) == Members(t, done)
  {
    assert ("," + t)[1..] == t;
  }

  lemma MembersClose(t: string, done: seq<Field>)
    ensures MembersNext("}" + t, done) == Done(Obj(done), At(t))
  {
    assert ("}" + t)[1..] == t;
  }

  lemma MembersSkip(w: string, t: string, done: seq<Field>)
    requires forall i :: 0 <= i < |w| ==> IsSpace(w[i])
    ensures Members(w + t, done) == Members(t, done)
  {
    ParseSkips(w, t);
  }

  lemma ObjectStarts(t: string)
    ensures ParseNext("{" + t) == ParseObject(Ws(t))
  {
    NoWs("{" + t);
    assert ("{" + t)[1..] == t;
  }

  // ----- arrays -----

  ghost predicate Good(v: JSON) {
    Valid(v) && KeysEscaped(v)
  }

  /** What follows the first of the items. */
  function ItemsTail(items: seq<JSON>, depth: nat, rest: string): (tail: string)
    requires items != []
    ensures Terminated(tail) && !IsSpace(tail[0])
  {
    if |items| == 1 then "]" + rest else "," + (" " + (DumpItems(items[1..], depth) + ("]" + rest)))
  }

  /** Moving the end of a text behind its separator's second character. */
  lemma Regroup(first: string, x: string, y: string, more: string, end: string)
    ensures (first + ((x + y) + more)) + end == first + (x + (y + (more + end)))
  {
    Associate(first, (x + y) + more, end);
    Associate(x + y, more, end);
    Associate(x, y, more + end);
  }

  lemma ItemsText(items: seq<JSON>, depth: nat, rest: string)
    requires items != []
    ensures DumpItems(items, depth) + ("]" + rest) == Dump(items[0], depth) + ItemsTail(items, depth, rest)
  {
    var first, end := Dump(items[0], depth), "]" + rest;
    if |items| == 1 {
      OneItem(items, depth);
    } else {
      ManyItems(items, depth);
      Regroup(first, ",", " ", DumpItems(items[1..], depth), end);
    }
  }

  lemma OneItem(items: seq<JSON>, depth: nat)
    requires |items| == 1
    ensures DumpItems(items, depth) == Dump(items[0], depth)
  {
    assert Dump(items[0], depth) + [] == Dump(items[0], depth);
  }

  lemma ManyItems(items: seq<JSON>, depth: nat)
    requires |items| > 1
    ensures DumpItems(items, depth) == Dump(items[0], depth) + (("," + " ") + DumpItems(items[1..], depth))
  {
    assert "," + " " == ", ";
  }

  lemma {:induction false} ParseItems(items: seq<JSON>, depth: nat, rest: string, done: seq<JSON>)
    requires items != [] && forall i :: 0 <= i < |items| ==> Good(items[i])
    ensures Items(DumpItems(items, depth) + ("]" + rest), done) == Done(Arr(done + items), At(rest))
    decreases items, 0
  {
    var tail := ItemsTail(items, depth, rest);
    ItemsText(items, depth, rest);
    ParseDump(items[0], depth, tail);
    NoWs(tail);
    ItemStep(Dump(items[0], depth) + tail, items[0], tail, done);
    if |items| == 1 {
      ItemsClose(rest, done + [items[0]]);
      assert items == [items[0]];
    } else {
      var more := DumpItems(items[1..], depth) + ("]" + rest);
      ItemsComma(" " + more, done + [items[0]]);
      ItemsSkip(" ", more, done + [items[0]]);
      ParseItems(items[1..], depth, rest, done + [items[0]]);
      assert done + [items[0]] + items[1..] == done + items;
    }
  }

  lemma ArrText(items: seq<JSON>, depth: nat, rest: string)
    ensures Dump(Arr(items), depth) + rest == "[" + (DumpItems(items, depth + 1) + ("]" + rest))
  {
    Associate("[" + DumpItems(items, depth + 1), "]", rest);
    Associate("[", DumpItems(items, depth + 1), "]" + rest);
  }

  lemma ItemsStart(items: seq<JSON>, depth: nat, rest: string)
    requires items != []
    ensures var body := DumpItems(items, depth) + ("]" + rest);
      Ws(body) == body && body != [] && body[0] != ']'
  {
    ItemsText(items, depth, rest);
    DumpStarts(items[0], depth);
    NoWs(DumpItems(items, depth) + ("]" + rest));
  }

  lemma ArrayEnds(rest: string)
    ensures ParseArray(Ws("]" + rest)) == Done(Arr([]), At(rest))
  {
    NoWs("]" + rest);
    assert ("]" + rest)[1..] == rest;
  }

  lemma {:induction false} ParseArr(items: seq<JSON>, depth: nat, rest: string)
    requires forall i :: 0 <= i < |items| ==> Good(items[i])
    ensures ParseNext(Dump(Arr(items), depth) + rest) == Done(Arr(items), At(rest))
    decreases items, 1
  {
    var body := DumpItems(items, depth + 1) + ("]" + rest);
    ArrText(items, depth, rest);
    ArrayStarts(body);
    if items == [] {
      assert body == "]" + rest;
      ArrayEnds(rest);
    } else {
      ItemsStart(items, depth + 1, rest);
      ParseItems(items, depth + 1, rest, []);
      assert [] + items == items;
    }
  }

  // ----- objects -----

  function EndPad(depth: nat): string {
    "\n" + Pad(if depth == 0 then 0 else depth - 1)
  }

  /** What follows the last field. */
  function FieldsEnd(depth: nat, rest: string): string {
    EndPad(depth) + ("}" + rest)
  }

  function FieldsTail(fields: seq<Field>, depth: nat, rest: string): (tail: string)
    requires fields != []
    ensures Terminated(tail)
  {
    if |fields| == 1 then FieldsEnd(depth, rest)
    else "," + ("\n" + (DumpFields(fields[1..], depth) + FieldsEnd(depth, rest)))
  }

  /** A field from its key on, and what follows it. */
  function FieldText(f: Field, depth: nat, tail: string): string {
    "\"" + f.key + "\"" + (" " + (":" + (" " + (Dump(f.value, depth + 1) + tail))))
  }

  lemma DumpFieldText(f: Field, depth: nat, tail: string)
    ensures DumpField(f, depth) + tail == Pad(depth) + FieldText(f, depth, tail)
  {
    var quoted, value := "\"" + f.key + "\"", Dump(f.value, depth + 1);
    assert DumpField(f, depth) == Pad(depth) + (quoted + (" : " + value));
    Associate(Pad(depth), quoted + (" : " + value), tail);
    Associate(quoted, " : " + value, tail);
    Associate(" : ", value, tail);
    assert " : " + (value + tail) == " " + (":" + (" " + (value + tail)));
  }

  lemma OneField(fields: seq<Field>, depth: nat)
    requires |fields| == 1
    ensures DumpFields(fields, depth) == DumpField(fields[0], depth)
  {
    assert DumpField(fields[0], depth) + [] == DumpField(fields[0], depth);
  }

  lemma ManyFields(fields: seq<Field>, depth: nat)
    requires |fields| > 1
    ensures DumpFields(fields, depth) == DumpField(fields[0], depth) + (("," + "\n") + DumpFields(fields[1..], depth))
  {
    assert "," + "\n" == ",\n";
  }

  lemma FieldsText(fields: seq<Field>, depth: nat, rest: string)
    requires fields != []
    ensures DumpFields(fields, depth) + FieldsEnd(depth, rest)
         == Pad(depth) + FieldText(fields[0], depth, FieldsTail(fields, depth, rest))
  {
    DumpFieldText(fields[0], depth, FieldsTail(fields, depth, rest));
    if |fields| == 1 {
      OneField(fields, depth);
    } else {
      ManyFields(fields, depth);
      Regroup(DumpField(fields[0], depth), ",", "\n", DumpFields(fields[1..], depth), FieldsEnd(depth, rest));
    }
  }

  ghost predicate GoodField(f: Field) {
    IsEscaped(f.key) && Good(f.value)
  }

  /** A key, up to and behind its colon. */
  lemma ParseKey(key: string, rest: string, done: seq<Field>)
    requires IsEscaped(key)
    ensures Members("\"" + key + "\"" + (" " + (":" + rest)), done) == MemberValue(Ws(rest), done, key)
  {
    var s :| Escape(s) == key;
    var colon := ":" + rest;
    ParseQuoted(s, " " + colon);
    KeyStep("\"" + key + "\"" + (" " + colon), Str(s), " " + colon, done);
    WsSkips(" ", colon);
    NoWs(colon);
    ColonStep(rest, done, key);
  }

  /** A whole field: what is left is dealt with as the text behind a member. */
  lemma {:induction false} ParseField(f: Field, depth: nat, tail: string, done: seq<Field>)
    requires GoodField(f) && Terminated(tail)
    ensures Members(FieldText(f, depth, tail), done) == MembersNext(Ws(tail), Put(done, f.key, f.value))
    decreases f, 0
  {
    var value := Dump(f.value, depth + 1) + tail;
    ParseKey(f.key, " " + value, done);
    WsSkips(" ", value);
    DumpStarts(f.value, depth + 1);
    NoWs(value);
    ParseDump(f.value, depth + 1, tail);
    ValueStep(value, f.value, tail, done, f.key);
  }

  lemma OrderedNext(done: seq<Field>, fields: seq<Field>)
    requires fields != [] && Ordered(done + fields)
    ensures Put(done, fields[0].key, fields[0].value) == done + [fields[0]]
    ensures done + [fields[0]] + fields[1..] == done + fields
  {
    var all := done + fields;
    forall i | 0 <= i < |done| ensures Less((done + [fields[0]])[i].key, (done + [fields[0]])[i + 1].key) {
      assert Less(all[i].key, all[i + 1].key);
    }
    PutLast(done, fields[0].key, fields[0].value);
  }

  lemma EndText(depth: nat, rest: string)
    ensures Ws(FieldsEnd(depth, rest)) == "}" + rest
  {
    WsSkips(EndPad(depth), "}" + rest);
    NoWs("}" + rest);
  }

  lemma {:induction false} PutAllOrdered(done: seq<Field>, fields: seq<Field>)
    requires Ordered(done + fields)
    ensures PutAll(done, fields) == done + fields
    decreases |fields|
  {
    if fields == [] {
      assert done + fields == done;
    } else {
      OrderedNext(done, fields);
      PutAllOrdered(done + [fields[0]], fields[1..]);
    }
  }

  /** The object loop on printed members in any order, repeated keys included. */
  lemma {:induction false} ParseMembers(fields: seq<Field>, depth: nat, rest: string, done: seq<Field>)
    requires fields != [] && forall i :: 0 <= i < |fields| ==> GoodField(fields[i])
    ensures Members(DumpFields(fields, depth) + FieldsEnd(depth, rest), done) == Done(Obj(PutAll(done, fields)), At(rest))
    decreases fields, 0
  {
    var f, tail := fields[0], FieldsTail(fields, depth, rest);
    var done' := Put(done, f.key, f.value);
    FieldsText(fields, depth, rest);
    MembersSkip(Pad(depth), FieldText(f, depth, tail), done);
    ParseField(f, depth, tail, done);
    if |fields| == 1 {
      EndText(depth, rest);
      MembersClose(rest, done');
      assert PutAll(done', fields[1..]) == done';
    } else {
      var more := DumpFields(fields[1..], depth) + FieldsEnd(depth, rest);
      NoWs(tail);
      MembersComma("\n" + more, done');
      MembersSkip("\n", more, done');
      ParseMembers(fields[1..], depth, rest, done');
    }
  }

  lemma ObjText(fields: seq<Field>, depth: nat, rest: string)
    ensures Dump(Obj(fields), depth) + rest == "{" + ("\n" + (DumpFields(fields, depth) + FieldsEnd(depth, rest)))
  {
    var body, pad := DumpFields(fields, depth), Pad(if depth == 0 then 0 else depth - 1);
    assert Dump(Obj(fields), depth) == "{\n" + (body + ("\n" + (pad + "}")));
    Associate("{\n", body + ("\n" + (pad + "}")), rest);
    Associate(body, "\n" + (pad + "}"), rest);
    assert ("\n" + (pad + "}")) + rest == EndPad(depth) + ("}" + rest);
    assert "{\n" + (body + FieldsEnd(depth, rest)) == "{" + ("\n" + (body + FieldsEnd(depth, rest)));
  }

  /** The first field begins with its key, once white space is skipped. */
  lemma FirstField(fields: seq<Field>, depth: nat, rest: string)
    requires fields != []
    ensures var text := FieldText(fields[0], depth, FieldsTail(fields, depth, rest));
      && Ws("\n" + (DumpFields(fields, depth) + FieldsEnd(depth, rest))) == text
      && text != [] && text[0] == '\"'
  {
    var text := FieldText(fields[0], depth, FieldsTail(fields, depth, rest));
    FieldsText(fields, depth, rest);
    WsSkips("\n", Pad(depth) + text);
    WsSkips(Pad(depth), text);
    NoWs(text);
  }

  lemma {:induction false} ParseAnyObj(fields: seq<Field>, depth: nat, rest: string)
    requires forall i :: 0 <= i < |fields| ==> GoodField(fields[i])
    ensures ParseNext(Dump(Obj(fields), depth) + rest) == Done(Obj(PutAll([], fields)), At(rest))
    decreases fields, 1
  {
    var body := DumpFields(fields, depth) + FieldsEnd(depth, rest);
    ObjText(fields, depth, rest);
    ObjectStarts("\n" + body);
    if fields == [] {
      assert body == FieldsEnd(depth, rest);
      WsSkips("\n", body);
      EndText(depth, rest);
      assert ("}" + rest)[1..] == rest;
    } else {
      FirstField(fields, depth, rest);
      FieldsText(fields, depth, rest);
      MembersSkip(Pad(depth), FieldText(fields[0], depth, FieldsTail(fields, depth, rest)), []);
      ParseMembers(fields, depth, rest, []);
    }
  }

  lemma {:induction false} ParseObj(fields: seq<Field>, depth: nat, rest: string)
    requires Ordered(fields) && forall i :: 0 <= i < |fields| ==> GoodField(fields[i])
    ensures ParseNext(Dump(Obj(fields), depth) + rest) == Done(Obj(fields), At(rest))
    decreases fields, 2
  {
    assert [] + fields == fields;
    PutAllOrdered([], fields);
    ParseAnyObj(fields, depth, rest);
  }

  // ----- all values -----

  lemma ParseWord(word: string, rest: string)
    requires word == "null" || word == "true" || word == "false"
    ensures ParseNext(word + rest) == Done(if word == "null" then Null else Bool(word == "true"), At(rest))
  {
    var t := word + rest;
    NoWs(t);
    assert t[..|word|] == word && t[|word|..] == rest;
    if word == "false" { assert t[..4] == "fals"; }
  }

  /** A printed value is parsed back to itself, whatever follows; a number needs a character
      behind it that ends it. */
  lemma {:induction false} ParseDump(v: JSON, depth: nat, rest: string)
    requires Good(v) && (v.Int? ==> Terminated(rest))
    ensures ParseNext(Dump(v, depth) + rest) == Done(v, At(rest))
    decreases v, 3
  {
    match v
    case Null => ParseWord("null", rest);
    case Bool(b) => ParseWord(if b then "true" else "false", rest);
    case Int(n) => ParseInt(n, rest);
    case Str(s) => ParseQuoted(s, rest);
    case Arr(items) => ParseArr(items, depth, rest);
    case Obj(fields) => ParseObj(fields, depth, rest);
  }

  /** Members of an object in any order, repeated keys included, load to the object that
      holds the last value of each key. */
  lemma MembersInAnyOrder(members: seq<Field>)
    requires forall i :: 0 <= i < |members| ==> GoodField(members[i])
    ensures exists fields ::
      && Load(Dump(Obj(members), 1)) == Some(Obj(fields)) && Ordered(fields)
      && forall key :: Lookup(fields, key) == LastValue(members, key)
  {
    var text := Dump(Obj(members), 1);
    assert text + [] == text;
    ParseAnyObj(members, 1, []);
    forall key ensures Lookup(PutAll([], members), key) == LastValue(members, key) {
      PutAllHolds(members, key);
    }
    PutAllHolds(members, []);
  }

  // ----- whatever is parsed -----

  lemma {:induction false} PutKeepsGood(fields: seq<Field>, key: string, value: JSON)
    requires (forall i :: 0 <= i < |fields| ==> GoodField(fields[i])) && GoodField(Field(key, value))
    ensures forall i :: 0 <= i < |Put(fields, key, value)| ==> GoodField(Put(fields, key, value)[i])
    decreases |fields|
  {
    if fields == [] || fields[0].key == key || Less(key, fields[0].key) {
    } else {
      PutKeepsGood(fields[1..], key, value);
    }
  }

  ghost predicate GoodFields(fields: seq<Field>) {
    Ordered(fields) && forall i :: 0 <= i < |fields| ==> GoodField(fields[i])
  }

  lemma GoodObj(fields: seq<Field>)
    requires GoodFields(fields)
    ensures Good(Obj(fields))
  {
  }

  lemma PutGoodFields(fields: seq<Field>, key: string, value: JSON)
    requires GoodFields(fields) && IsEscaped(key) && Good(value)
    ensures GoodFields(Put(fields, key, value))
  {
    PutOrdered(fields, key, value);
    PutKeepsGood(fields, key, value);
  }

  ghost predicate IsGood(r: Result) {
    r.Done? ==> Good(r.value)
  }

  lemma KeyIsEscaped(key: JSON)
    ensures IsEscaped(KeyText(key))
  {
    assert Escape([]) == [];
    assert key.Str? ==> Escape(key.s) == KeyText(key);
  }

  /** Whatever is parsed has the fields of every object in order and its keys escaped. */
  lemma {:induction false} NextGood(t: string)
    ensures IsGood(ParseNext(t))
    decreases |t|, 4
  {
    ValueGood(Ws(t));
  }

  lemma {:induction false} ValueGood(t: string)
    ensures IsGood(ParseValue(t))
    decreases |t|, 3
  {
    if t != [] && t[0] == '[' {
      ArrayGood(Ws(t[1..]));
    } else if t != [] && t[0] == '{' {
      ObjectGood(Ws(t[1..]));
    }
  }

  lemma {:induction false} ArrayGood(t: string)
    ensures IsGood(ParseArray(t))
    decreases |t|, 6
  {
    ItemsGood(t, []);
  }

  lemma {:induction false} ItemsGood(t: string, items: seq<JSON>)
    requires forall i :: 0 <= i < |items| ==> Good(items[i])
    ensures IsGood(Items(t, items))
    decreases |t|, 5
  {
    NextGood(t);
    match ParseNext(t)
    case Outside =>
    case Done(v, rest) =>
      if rest.At? {
        ItemsNextGood(Ws(rest.text), items + [v]);
      }
  }

  lemma {:induction false} ItemsNextGood(t: string, items: seq<JSON>)
    requires forall i :: 0 <= i < |items| ==> Good(items[i])
    ensures IsGood(ItemsNext(t, items))
    decreases |t|, 0
  {
    if t != [] && t[0] == ',' {
      ItemsGood(t[1..], items);
    }
  }

  lemma {:induction false} ObjectGood(t: string)
    ensures IsGood(ParseObject(t))
    decreases |t|, 6
  {
    MembersGood(t, []);
  }

  lemma {:induction false} MembersGood(t: string, fields: seq<Field>)
    requires GoodFields(fields)
    ensures IsGood(Members(t, fields))
    decreases |t|, 5
  {
    match ParseNext(t)
    case Outside =>
    case Done(key, rest) =>
      if rest.At? {
        KeyIsEscaped(key);
        ColonGood(Ws(rest.text), fields, KeyText(key));
      }
  }

  lemma {:induction false} ColonGood(t: string, fields: seq<Field>, key: string)
    requires GoodFields(fields) && IsEscaped(key)
    ensures IsGood(MemberColon(t, fields, key))
    decreases |t|, 0
  {
    if t != [] && t[0] == ':' {
      MemberGood(Ws(t[1..]), fields, key);
    } else {
      GoodObj(fields);
    }
  }

  lemma {:induction false} MemberGood(t: string, fields: seq<Field>, key: string)
    requires GoodFields(fields) && IsEscaped(key)
    ensures IsGood(MemberValue(t, fields, key))
    decreases |t|, 5
  {
    NextGood(t);
    match ParseNext(t)
    case Outside =>
    case Done(v, rest) =>
      if rest.At? {
        PutGoodFields(fields, key, v);
        MembersNextGood(Ws(rest.text), Put(fields, key, v));
      }
  }

  lemma {:induction false} MembersNextGood(t: string, fields: seq<Field>)
    requires GoodFields(fields)
    ensures IsGood(MembersNext(t, fields))
    decreases |t|, 0
  {
    if t != [] && t[0] == ',' {
      MembersGood(t[1..], fields);
    } else {
      GoodObj(fields);
    }
  }

  /** A printed value comes back exactly when it is not a bare number, the fields of its
      objects are in order and all its keys are in escaped form. */
  lemma RoundTripIff(v: JSON)
    ensures Load(Dump(v, 1)) == Some(v) <==> !v.Int? && Valid(v) && KeysEscaped(v)
  {
    var text := Dump(v, 1);
    assert text + [] == text;
    if v.Int? {
      ParseInt(v.n, []);
    } else if Good(v) {
      ParseDump(v, 1, []);
    } else {
      NextGood(text);
    }
  }

  /** Whatever text is loaded, printing what was loaded and loading it again changes nothing;
      only a bare number is lost. */
  lemma LoadedComesBack(t: string)
    requires Load(t).Some?
    ensures Valid(Load(t).value)
    ensures Load(Dump(Load(t).value, 1)) == Load(t) <==> !Load(t).value.Int?
  {
    NextGood(t);
    RoundTripIff(Load(t).value);
  }

  // ----- texts that break off -----

  /** No separator behind an item: the whole array is dropped, and what follows is left. */
  lemma ItemWithoutComma(v: JSON, depth: nat, rest: string)
    requires Good(v) && !v.Int?
    requires rest == [] || (rest[0] != ',' && rest[0] != ']' && !IsSpace(rest[0]))
    ensures ParseNext("[" + (Dump(v, depth) + rest)) == Done(Arr([]), At(rest))
  {
    var body := Dump(v, depth) + rest;
    ArrayStarts(body);
    DumpStarts(v, depth);
    NoWs(body);
    ParseDump(v, depth, rest);
    NoWs(rest);
    ItemStep(body, v, rest, []);
  }

  /** No colon behind a key: the members before it are kept. */
  lemma MemberWithoutColon(f: Field, depth: nat, key: string, rest: string)
    requires GoodField(f)
    requires rest == [] || (rest[0] != ':' && !IsSpace(rest[0]))
    ensures ParseNext("{" + FieldText(f, depth, "," + ("\"" + Escape(key) + "\"" + rest))) == Done(Obj([f]), At(rest))
  {
    var quoted := "\"" + Escape(key) + "\"" + rest;
    var body := FieldText(f, depth, "," + quoted);
    ObjectStarts(body);
    NoWs(body);
    ParseField(f, depth, "," + quoted, []);
    NoWs("," + quoted);
    MembersComma(quoted, [f]);
    ParseQuoted(key, rest);
    KeyStep(quoted, Str(key), rest, [f]);
    NoWs(rest);
  }

  // ----- the characters of the format -----

  const ESCAPES: map<char, char> :=
    map['\"' := '\"', '\\' := '\\', 8 as char := 'b', 12 as char := 'f', '\n' := 'n', '\r' := 'r', '\t' := 't']

  const UNESCAPES: map<char, char> :=
    map['\"' := '\"', '\\' := '\\', '/' := '/', 'b' := 8 as char, 'f' := 12 as char, 'n' := '\n', 'r' := '\r', 't' := '\t']

  /** The escapes of a printed character. */
  lemma EscapesWritten(c: char)
    ensures Escape([c]) == if c in ESCAPES then ['\\', ESCAPES[c]] else [c]
  {
    assert [c][1..] == [] && Escape([]) == [];
  }

  /** The escapes of a string that is read; any other character behind a backslash reads as
      the backslash. Four digits behind a `u` are left as they are. */
  lemma EscapesRead(c: char, rest: string, val: string)
    requires c != 'u'
    ensures StringBody("\\" + [c] + rest, val)
         == StringBody(rest, val + [if c in UNESCAPES then UNESCAPES[c] else '\\'])
  {
    var t := "\\" + [c] + rest;
    assert t[2..] == rest;
  }

  lemma UnicodeRead(h: string, rest: string, val: string)
    requires |h| == 4 && forall i :: 0 <= i < 4 ==> '0' <= h[i] <= '9' || 'a' <= h[i] <= 'f' || 'A' <= h[i] <= 'F'
    ensures StringBody("\\u" + h + rest, val) == StringBody(rest, val + "\\u" + h)
  {
    var t := "\\u" + h + rest;
    assert t[2..] == h + rest && t[6..] == rest && t[2..6] == h;
  }

  /** Without four such digits the string is lost, and what is left begins with the `u`. */
  lemma UnicodeBroken(t: string, val: string)
    requires |t| >= 2 && t[0] == '\\' && t[1] == 'u'
    requires |t| < 6 || exists k :: 2 <= k < 6 && !('0' <= t[k] <= '9' || 'a' <= t[k] <= 'f' || 'A' <= t[k] <= 'F')
    ensures StringBody(t, val) == Done(Str([]), At(t[1..]))
  {
  }

  /** Spaces, tabs and line ends in front of a value are skipped, and nothing else is. */
  lemma SpaceSkipped(w: string, t: string)
    requires forall i :: 0 <= i < |w| ==> IsBlank(w[i])
    ensures ParseNext(w + t) == ParseNext(t)
    ensures t != [] && !IsBlank(t[0]) ==> ParseNext(w + t) == ParseValue(t)
  {
    ParseSkips(w, t);
  }

  /** A number with another character behind it is lost, and so is that character; a point
      or an exponent is outside the model. */
  lemma NumberBroken(n: Long, c: char, rest: string)
    requires !Terminated([c]) && c != '-' && !('0' <= c <= '9') && c != '.' && c != 'E' && c != 'e'
    ensures ParseNext(IntText(n) + ([c] + rest)) == Done(Null, At(rest))
  {
    var text, more := IntText(n), [c] + rest;
    NumberIsPlain(n);
    NumberChars(text, more, []);
    assert [] + text == text && more[1..] == rest;
    NumberStarts(text + more);
  }

  /** Numbers are written as decimal numerals, with a sign if they are negative, and without
      leading zeros. */
  lemma NumberWritten(n: Long)
    ensures n >= 0 ==> Spells(Dump(Int(n), 1), 10, n)
    ensures n < 0 ==> Dump(Int(n), 1)[0] == '-' && Spells(Dump(Int(n), 1)[1..], 10, 0 - n as int)
    ensures n != 0 ==> Dump(Int(n), 1)[if n < 0 then 1 else 0] != '0'
  {
    var digits := Digits(AbsoluteValue(n), Decimal, Lower);
    DigitsSpell(AbsoluteValue(n), Decimal, Lower);
    NoLeadingZero(AbsoluteValue(n), Decimal, Lower);
    assert ("-" + digits)[1..] == digits;
  }

  lemma Listed(open: string, a: string, x: string, y: string, b: string, close: string)
    ensures open + (a + ((x + y) + b)) + close == open + a + (x + y) + b + close
  {
    Associate(open, a, (x + y) + b);
    Associate(open + a, x + y, b);
  }

  /** The layout of arrays. */
  lemma ArrayLayout(a: JSON, b: JSON, depth: nat)
    ensures Dump(Arr([a, b]), depth) == "[" + Dump(a, depth + 1) + ", " + Dump(b, depth + 1) + "]"
  {
    var items := [a, b];
    ManyItems(items, depth + 1);
    assert items[1..] == [b] && "," + " " == ", ";
    OneItem([b], depth + 1);
    Listed("[", Dump(a, depth + 1), ",", " ", Dump(b, depth + 1), "]");
  }

  /** The layout of fields and objects, whose depth is that of the fields. */
  lemma FieldLayout(f: Field, depth: nat)
    requires depth == 1
    ensures DumpField(f, depth) == "  \"" + f.key + "\" : " + Dump(f.value, depth + 1)
  {
    assert Pad(depth) == "  " + Pad(depth - 1);
  }

  lemma ObjectLayout(f: Field, g: Field, depth: nat)
    requires depth == 1
    ensures Dump(Obj([f, g]), depth) == "{\n" + DumpField(f, depth) + ",\n" + DumpField(g, depth) + "\n}"
  {
    var fields := [f, g];
    ManyFields(fields, depth);
    assert fields[1..] == [g] && "," + "\n" == ",\n";
    OneField([g], depth);
    assert Dump(Obj(fields), depth) == "{\n" + DumpFields(fields, depth) + "\n" + Pad(depth - 1) + "}";
    Listed("{\n", DumpField(f, depth), ",", "\n", DumpField(g, depth), "\n}");
  }
}
