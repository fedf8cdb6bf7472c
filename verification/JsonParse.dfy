/** What the vendored JSON parser computes, on the text that is left. */
module JsonParse {
  import opened Basics
  import opened NumberText
  import opened JsonText

  /** What is left of the text: a suffix, or nothing at all once the offset has passed even
      the terminating NUL. */
  datatype Rest = At(text: string) | Beyond

  /** A result, or something outside the model: a read behind the text, an exception, or a
      floating-point number. */
  datatype Result = Outside | Done(value: JSON, rest: Rest)

  /** `str[offset]`, which is a NUL at the end */
  function Char(t: string): char {
    if t == [] then '\0' else t[0]
  }

  predicate IsSpace(c: char) {
    c == ' ' || c == '\t' || c == '\n' || c == 11 as char || c == 12 as char || c == '\r'
  }

  /** `consume_ws` */
  function Ws(t: string): (r: string)
    ensures |r| <= |t| && (r == [] || !IsSpace(r[0]))
  {
    if t != [] && IsSpace(t[0]) then Ws(t[1..]) else t
  }

  function Shorter(r: Result, t: string): bool {
    r.Done? && r.rest.At? ==> |r.rest.text| <= |t|
  }

  // ----- strings, booleans, null -----

  /** What stands for an escaped character other than `u`; the source keeps the backslash
      of an unknown escape and drops the character. */
  function Unescaped(c: char): string {
    if c == '\"' then "\"" else if c == '\\' then "\\" else if c == '/' then "/"
    else if c == 'b' then [8 as char] else if c == 'f' then [12 as char]
    else if c == 'n' then "\n" else if c == 'r' then "\r" else if c == 't' then "\t"
    else "\\"
  }

  predicate FourHexDigits(t: string) {
    |t| >= 4 && IsDigit(t[0]) && IsDigit(t[1]) && IsDigit(t[2]) && IsDigit(t[3])
  }

  /** The body of a string behind its opening quote, or behind the part in `val`. */
  function StringBody(t: string, val: string): (r: Result)
    ensures Shorter(r, t) && (r.Done? ==> r.value.Str?)
    decreases |t|
  {
    if t == [] then Outside
    else if t[0] == '\"' then Done(Str(val), At(t[1..]))
    else if t[0] != '\\' then StringBody(t[1..], val + [t[0]])
    else if |t| == 1 then Outside
    else if t[1] != 'u' then StringBody(t[2..], val + Unescaped(t[1]))
    else if FourHexDigits(t[2..]) then StringBody(t[6..], val + "\\u" + t[2..6])
    else Done(Str([]), At(t[1..]))
  }

  function ParseBool(t: string): (r: Result)
    ensures Shorter(r, t)
  {
    if |t| >= 4 && t[..4] == "true" then Done(Bool(true), At(t[4..]))
    else if |t| >= 5 && t[..5] == "false" then Done(Bool(false), At(t[5..]))
    else Done(Null, At(t))
  }

  function ParseNull(t: string): (r: Result)
    ensures Shorter(r, t)
  {
    if |t| >= 4 && t[..4] == "null" then Done(Null, At(t[4..])) else Done(Null, At(t))
  }

  // ----- numbers -----

  predicate IsDecimal(c: char) {
    '0' <= c <= '9'
  }

  function Magnitude(digits: string): nat {
    if digits == [] then 0 else 10 * Magnitude(digits[..|digits| - 1]) + CharToInt(digits[|digits| - 1])
  }

  function LeadingDigits(s: string): (d: string) {
    if s != [] && IsDecimal(s[0]) then [s[0]] + LeadingDigits(s[1..]) else []
  }

  /** `std::stol`; None stands for the exception of a text that is no number, or not a
      `long`. */
  function Stol(s: string): Option<Long> {
    if s != [] && s[0] == '-' then
      var digits := LeadingDigits(s[1..]);
      if digits == [] || Magnitude(digits) > 0x8000_0000_0000_0000 then None else Some(0 - Magnitude(digits))
    else
      var digits := LeadingDigits(s);
      if digits == [] || Magnitude(digits) >= 0x8000_0000_0000_0000 then None else Some(Magnitude(digits))
  }

  predicate EndsNumber(c: char) {
    IsSpace(c) || c == ',' || c == ']' || c == '}'
  }

  /** Behind the part in `val`; points and exponents are outside the model. */
  function NumberBody(t: string, val: string): (r: Result)
    ensures Shorter(r, t) && (r.Done? ==> r.value.Int? || r.value.Null?)
    decreases |t|
  {
    var c := Char(t);
    if t != [] && (c == '-' || IsDecimal(c)) then NumberBody(t[1..], val + [c])
    else if c == '.' || c == 'E' || c == 'e' then Outside
    else if !EndsNumber(c) then Done(Null, if t == [] then Beyond else At(t[1..]))
    else match Stol(val) case None => Outside case Some(n) => Done(Int(n), At(t))
  }

  // ----- values -----

  /** `ToString`: keys are escaped again, and a key that is no string is the empty one. */
  function KeyText(key: JSON): string {
    if key.Str? then Escape(key.s) else []
  }

  /** `parse_next` */
  function ParseNext(t: string): (r: Result)
    ensures Shorter(r, t)
    decreases |t|, 4
  {
    ParseValue(Ws(t))
  }

  function ParseValue(t: string): (r: Result)
    ensures Shorter(r, t)
    decreases |t|, 3
  {
    var c := Char(t);
    if t == [] then Done(Null, At(t))
    else if c == '[' then ParseArray(Ws(t[1..]))
    else if c == '{' then ParseObject(Ws(t[1..]))
    else if c == '\"' then StringBody(t[1..], [])
    else if c == 't' || c == 'f' then ParseBool(t)
    else if c == 'n' then ParseNull(t)
    else if IsDecimal(c) || c == '-' then NumberBody(t, [])
    else Done(Null, At(t))
  }

  /** `parse_array` behind the bracket and white space */
  function ParseArray(t: string): (r: Result)
    ensures Shorter(r, t)
    decreases |t|, 6
  {
    if t != [] && t[0] == ']' then Done(Arr([]), At(t[1..])) else Items(t, [])
  }

  /** The loop of `parse_array` */
  function Items(t: string, items: seq<JSON>): (r: Result)
    ensures Shorter(r, t)
    decreases |t|, 5
  {
    match ParseNext(t)
    case Outside => Outside
    case Done(_, Beyond) => Outside
    case Done(v, At(rest)) => ItemsNext(Ws(rest), items + [v])
  }

  /** Behind an item and white space */
  function ItemsNext(t: string, items: seq<JSON>): (r: Result)
    ensures Shorter(r, t)
    decreases |t|, 0
  {
    if t != [] && t[0] == ',' then Items(t[1..], items)
    else if t != [] && t[0] == ']' then Done(Arr(items), At(t[1..]))
    else Done(Arr([]), At(t))
  }

  /** `parse_object` behind the brace and white space */
  function ParseObject(t: string): (r: Result)
    ensures Shorter(r, t)
    decreases |t|, 6
  {
    if t != [] && t[0] == '}' then Done(Obj([]), At(t[1..])) else Members(t, [])
  }

  /** The loop of `parse_object` */
  function Members(t: string, fields: seq<Field>): (r: Result)
    ensures Shorter(r, t)
    decreases |t|, 5
  {
    match ParseNext(t)
    case Outside => Outside
    case Done(_, Beyond) => Outside
    case Done(key, At(rest)) => MemberColon(Ws(rest), fields, KeyText(key))
  }

  /** Behind a key and white space */
  function MemberColon(t: string, fields: seq<Field>, key: string): (r: Result)
    ensures Shorter(r, t)
    decreases |t|, 0
  {
    if t == [] || t[0] != ':' then Done(Obj(fields), At(t)) else MemberValue(Ws(t[1..]), fields, key)
  }

  function MemberValue(t: string, fields: seq<Field>, key: string): (r: Result)
    ensures Shorter(r, t)
    decreases |t|, 5
  {
    match ParseNext(t)
    case Outside => Outside
    case Done(_, Beyond) => Outside
    case Done(v, At(rest)) => MembersNext(Ws(rest), Put(fields, key, v))
  }

  /** Behind a member and white space */
  function MembersNext(t: string, fields: seq<Field>): (r: Result)
    ensures Shorter(r, t)
    decreases |t|, 0
  {
    if t != [] && t[0] == ',' then Members(t[1..], fields)
    else if t != [] && t[0] == '}' then Done(Obj(fields), At(t[1..]))
    else Done(Obj(fields), At(t))
  }

  /** `JSON::Load` */
  function Load(s: string): Option<JSON> {
    match ParseNext(s) case Outside => None case Done(v, _) => Some(v)
  }
}
