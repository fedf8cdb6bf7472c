/** JSON values and their text, as the vendored printer writes it. */
module JsonText {
  import opened Basics
  import opened NumberText

  type Long = n: int | -0x8000_0000_0000_0000 <= n < 0x8000_0000_0000_0000

  /** Values without floating-point numbers. The fields of an object are those of a map in
      the order of their keys. */
  datatype JSON =
    | Null
    | Bool(b: bool)
    | Int(n: Long)
    | Str(s: string)
    | Arr(items: seq<JSON>)
    | Obj(fields: seq<Field>)

  datatype Field = Field(key: string, value: JSON)

  // ----- the map of an object -----

  /** `operator<` of strings */
  predicate Less(a: string, b: string) {
    b != [] && (a == [] || a[0] < b[0] || (a[0] == b[0] && Less(a[1..], b[1..])))
  }

  lemma {:induction false} LessTransitive(a: string, b: string, c: string)
    requires Less(a, b) && Less(b, c)
    ensures Less(a, c)
  {
    if a == [] || !(a[0] == b[0] == c[0]) {
    } else {
      LessTransitive(a[1..], b[1..], c[1..]);
    }
  }

  lemma {:induction false} LessIrreflexive(a: string)
    ensures !Less(a, a)
  {
    if a == [] {
    } else {
      LessIrreflexive(a[1..]);
    }
  }

  predicate Ordered(fields: seq<Field>) {
    forall i :: 0 <= i < |fields| - 1 ==> Less(fields[i].key, fields[i + 1].key)
  }

  /** `object[key] = value` */
  function Put(fields: seq<Field>, key: string, value: JSON): seq<Field> {
    if fields == [] then [Field(key, value)]
    else if fields[0].key == key then [Field(key, value)] + fields[1..]
    else if Less(key, fields[0].key) then [Field(key, value)] + fields
    else [fields[0]] + Put(fields[1..], key, value)
  }

  /** A key greater than all others goes to the end. */
  lemma {:induction false} PutLast(fields: seq<Field>, key: string, value: JSON)
    requires Ordered(fields + [Field(key, value)])
    ensures Put(fields, key, value) == fields + [Field(key, value)]
    decreases |fields|
  {
    if fields == [] {
    } else {
      var all := fields + [Field(key, value)];
      assert fields[1..] + [Field(key, value)] == all[1..];
      forall i | 0 <= i < |all[1..]| - 1 ensures Less(all[1..][i].key, all[1..][i + 1].key) {
        assert Less(all[i + 1].key, all[i + 2].key);
      }
      PutLast(fields[1..], key, value);
      FirstIsLeast(all, |fields|);
      LessIrreflexive(key);
      if Less(key, fields[0].key) { LessTransitive(key, fields[0].key, key); }
    }
  }

  lemma {:induction false} FirstIsLeast(fields: seq<Field>, i: nat)
    requires Ordered(fields) && 0 < i < |fields|
    ensures Less(fields[0].key, fields[i].key)
  {
    assert Less(fields[i - 1].key, fields[i - 1 + 1].key);
    if i <= 1 {
    } else {
      FirstIsLeast(fields, i - 1);
      LessTransitive(fields[0].key, fields[i - 1].key, fields[i].key);
    }
  }

  /** The order of strings: the shorter one is a beginning of the other, or the first
      characters that differ decide. */
  ghost predicate Differs(a: string, b: string, k: nat) {
    && k <= |a| && k < |b| && a[..k] == b[..k]
    && (k == |a| || a[k] < b[k])
  }

  lemma SameFirst(a: string, b: string, k: nat)
    ensures Differs(a, b, k) && k > 0 ==> a != [] && b != [] && a[0] == b[0]
  {
    if Differs(a, b, k) && k > 0 {
      assert a[..k][0] == a[0] && b[..k][0] == b[0];
    }
  }

  lemma {:induction false} LessIff(a: string, b: string)
    ensures Less(a, b) <==> exists k: nat :: Differs(a, b, k)
  {
    if a != [] && b != [] && a[0] == b[0] {
      LessIff(a[1..], b[1..]);
      if Less(a, b) {
        var k: nat :| Differs(a[1..], b[1..], k);
        assert a[..k + 1] == [a[0]] + a[1..][..k] && b[..k + 1] == [b[0]] + b[1..][..k];
        assert Differs(a, b, k + 1);
      }
      if k: nat :| Differs(a, b, k) {
        assert a[1..][..k - 1] == a[..k][1..] && b[1..][..k - 1] == b[..k][1..];
        assert Differs(a[1..], b[1..], k - 1);
      }
    } else if Less(a, b) {
      assert Differs(a, b, 0);
    } else {
      forall k: nat ensures !Differs(a, b, k) {
        SameFirst(a, b, k);
      }
    }
  }

  lemma {:induction false} LessTotal(a: string, b: string)
    ensures Less(a, b) || Less(b, a) || a == b
  {
    if a != [] && b != [] && a[0] == b[0] {
      LessTotal(a[1..], b[1..]);
    }
  }

  /** The value of a key. */
  function Lookup(fields: seq<Field>, key: string): Option<JSON> {
    if fields == [] then None
    else if fields[0].key == key then Some(fields[0].value)
    else Lookup(fields[1..], key)
  }

  /** The value just put is found under its key, and every other key keeps what it had. */
  lemma {:induction false} PutFound(fields: seq<Field>, key: string, value: JSON, other: string)
    ensures Lookup(Put(fields, key, value), other) == if other == key then Some(value) else Lookup(fields, other)
    decreases |fields|
  {
    if fields == [] || fields[0].key == key || Less(key, fields[0].key) {
    } else {
      PutFound(fields[1..], key, value, other);
    }
  }

  lemma OrderedRest(fields: seq<Field>)
    requires fields != [] && Ordered(fields)
    ensures Ordered(fields[1..])
  {
    forall i | 0 <= i < |fields[1..]| - 1 ensures Less(fields[1..][i].key, fields[1..][i + 1].key) {
      assert Less(fields[i + 1].key, fields[i + 1 + 1].key);
    }
  }

  lemma OrderedInFront(f: Field, fields: seq<Field>)
    requires Ordered(fields) && (fields != [] ==> Less(f.key, fields[0].key))
    ensures Ordered([f] + fields)
  {
    var all := [f] + fields;
    forall i | 0 <= i < |all| - 1 ensures Less(all[i].key, all[i + 1].key) {
      if i > 0 {
        assert Less(fields[i - 1].key, fields[i - 1 + 1].key);
      }
    }
  }

  lemma {:induction false} PutOrdered(fields: seq<Field>, key: string, value: JSON)
    requires Ordered(fields)
    ensures Ordered(Put(fields, key, value))
    decreases |fields|
  {
    if fields == [] {
    } else if fields[0].key == key {
      OrderedRest(fields);
      assert |fields| > 1 ==> Less(fields[0].key, fields[0 + 1].key);
      OrderedInFront(Field(key, value), fields[1..]);
    } else if Less(key, fields[0].key) {
      OrderedInFront(Field(key, value), fields);
    } else {
      OrderedRest(fields);
      PutOrdered(fields[1..], key, value);
      LessTotal(key, fields[0].key);
      assert |fields| > 1 ==> Less(fields[0].key, fields[0 + 1].key);
      OrderedInFront(fields[0], Put(fields[1..], key, value));
    }
  }

  lemma {:induction false} AbsentBelow(fields: seq<Field>, key: string)
    requires Ordered(fields) && (fields != [] ==> Less(key, fields[0].key))
    ensures Lookup(fields, key) == None
    decreases |fields|
  {
    if fields == [] {
    } else {
      LessIrreflexive(key);
      if |fields| > 1 {
        assert Less(fields[0].key, fields[0 + 1].key);
        LessTransitive(key, fields[0].key, fields[1].key);
      }
      OrderedRest(fields);
      AbsentBelow(fields[1..], key);
    }
  }

  lemma FirstFound(fields: seq<Field>)
    requires fields != []
    ensures Lookup(fields, fields[0].key) == Some(fields[0].value)
  {
  }

  /** Ordered fields are determined by what is found in them: they are a map. */
  lemma {:induction false} SameMap(a: seq<Field>, b: seq<Field>)
    requires Ordered(a) && Ordered(b) && forall q :: Lookup(a, q) == Lookup(b, q)
    ensures a == b
    decreases |a|
  {
    if a == [] {
      if b != [] { FirstFound(b); }
    } else if b == [] {
      FirstFound(a);
    } else {
      assert Lookup(a, a[0].key) == Lookup(b, a[0].key);
      assert Lookup(a, b[0].key) == Lookup(b, b[0].key);
      LessTotal(a[0].key, b[0].key);
      if Less(a[0].key, b[0].key) { AbsentBelow(b, a[0].key); }
      if Less(b[0].key, a[0].key) { AbsentBelow(a, b[0].key); }
      SameRest(a, b);
      SameMap(a[1..], b[1..]);
      assert a == [a[0]] + a[1..] && b == [b[0]] + b[1..];
    }
  }

  lemma SameRest(a: seq<Field>, b: seq<Field>)
    requires a != [] && b != [] && a[0].key == b[0].key && Ordered(a) && Ordered(b)
    requires forall q :: Lookup(a, q) == Lookup(b, q)
    ensures a[0] == b[0] && Ordered(a[1..]) && Ordered(b[1..])
    ensures forall q :: Lookup(a[1..], q) == Lookup(b[1..], q)
  {
    OrderedRest(a);
    OrderedRest(b);
    assert Lookup(a, a[0].key) == Lookup(b, a[0].key);
    forall q ensures Lookup(a[1..], q) == Lookup(b[1..], q) {
      if q == a[0].key {
        if |a| > 1 { assert Less(a[0].key, a[0 + 1].key); }
        if |b| > 1 { assert Less(b[0].key, b[0 + 1].key); }
        AbsentBelow(a[1..], q);
        AbsentBelow(b[1..], q);
      } else {
        assert Lookup(a, q) == Lookup(b, q);
      }
    }
  }

  /** Members one after the other. */
  function PutAll(done: seq<Field>, members: seq<Field>): seq<Field>
    decreases |members|
  {
    if members == [] then done else PutAll(Put(done, members[0].key, members[0].value), members[1..])
  }

  /** The value of the last member with a key. */
  function LastValue(members: seq<Field>, key: string): Option<JSON> {
    if members == [] then None
    else if members[|members| - 1].key == key then Some(members[|members| - 1].value)
    else LastValue(members[..|members| - 1], key)
  }

  lemma {:induction false} PutAllMore(done: seq<Field>, members: seq<Field>, f: Field)
    ensures PutAll(done, members + [f]) == Put(PutAll(done, members), f.key, f.value)
    decreases |members|
  {
    if members == [] {
      assert members + [f] == [f];
    } else {
      assert (members + [f])[1..] == members[1..] + [f];
      PutAllMore(Put(done, members[0].key, members[0].value), members[1..], f);
    }
  }

  /** In whatever order members come, the object holds the last value of each key. */
  lemma {:induction false} PutAllHolds(members: seq<Field>, key: string)
    ensures Ordered(PutAll([], members)) && Lookup(PutAll([], members), key) == LastValue(members, key)
    decreases |members|
  {
    if members == [] {
    } else {
      var init, last := members[..|members| - 1], members[|members| - 1];
      assert members == init + [last];
      PutAllHolds(init, key);
      PutAllMore([], init, last);
      PutOrdered(PutAll([], init), last.key, last.value);
      PutFound(PutAll([], init), last.key, last.value, key);
    }
  }

  // ----- the text -----

  function EscapedChar(c: char): (s: string)
    ensures s != []
  {
    if c == '\"' then "\\\""
    else if c == '\\' then "\\\\"
    else if c == 8 as char then "\\b"
    else if c == 12 as char then "\\f"
    else if c == '\n' then "\\n"
    else if c == '\r' then "\\r"
    else if c == '\t' then "\\t"
    else [c]
  }

  /** `json_escape` */
  function Escape(s: string): string {
    if s == [] then [] else EscapedChar(s[0]) + Escape(s[1..])
  }

  /** `std::to_string(long)` */
  function IntText(n: int): string {
    if n < 0 then "-" + Digits(AbsoluteValue(n), Decimal, Lower) else Digits(AbsoluteValue(n), Decimal, Lower)
  }

  function AbsoluteValue(n: int): nat {
    if n < 0 then -n else n
  }

  function Pad(depth: nat): (s: string)
    ensures |s| == 2 * depth && forall i :: 0 <= i < |s| ==> s[i] == ' '
  {
    if depth == 0 then [] else "  " + Pad(depth - 1)
  }

  /** `dump` with the two-space tab it is called with */
  function Dump(v: JSON, depth: nat): string
    decreases v, 1
  {
    match v
    case Null => "null"
    case Bool(b) => if b then "true" else "false"
    case Int(n) => IntText(n)
    case Str(s) => "\"" + Escape(s) + "\""
    case Arr(items) => "[" + DumpItems(items, depth + 1) + "]"
    case Obj(fields) => "{\n" + DumpFields(fields, depth) + "\n" + Pad(if depth == 0 then 0 else depth - 1) + "}"
  }

  function DumpItems(items: seq<JSON>, depth: nat): string
    decreases items, 0
  {
    if items == [] then []
    else Dump(items[0], depth) + (if |items| == 1 then [] else ", " + DumpItems(items[1..], depth))
  }

  function DumpField(f: Field, depth: nat): string
    decreases f, 0
  {
    Pad(depth) + "\"" + f.key + "\" : " + Dump(f.value, depth + 1)
  }

  function DumpFields(fields: seq<Field>, depth: nat): string
    decreases fields, 0
  {
    if fields == [] then []
    else DumpField(fields[0], depth) + (if |fields| == 1 then [] else ",\n" + DumpFields(fields[1..], depth))
  }

  // ----- which values -----

  /** Every object's fields are in order, as those of a map are. */
  predicate Valid(v: JSON) {
    match v
    case Arr(items) => forall i :: 0 <= i < |items| ==> Valid(items[i])
    case Obj(fields) => Ordered(fields) && forall i :: 0 <= i < |fields| ==> Valid(fields[i].value)
    case _ => true
  }

  ghost predicate IsEscaped(key: string) {
    exists s :: Escape(s) == key
  }

  /** Every object key is in escaped form. */
  ghost predicate KeysEscaped(v: JSON) {
    match v
    case Arr(items) => forall i :: 0 <= i < |items| ==> KeysEscaped(items[i])
    case Obj(fields) =>
      forall i :: 0 <= i < |fields| ==> IsEscaped(fields[i].key) && KeysEscaped(fields[i].value)
    case _ => true
  }
}
