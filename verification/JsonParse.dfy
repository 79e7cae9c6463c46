/** JSON.parse: a recursive-descent parser for the grammar of RFC 8259. Each function takes the text
    that remains and gives the value and what remains after it. */
module JsonParse {
  import opened Base
  import opened Text
  import opened JsonValue

  predicate IsSpace(u: Unit) { u == SPACE || u == TAB || u == LF || u == CR }

  function SkipSpace(s: Text): (r: Text)
    ensures |r| <= |s|
    ensures r != [] ==> !IsSpace(r[0])
  {
    if s != [] && IsSpace(s[0]) then SkipSpace(s[1..]) else s
  }

  predicate StartsWith(s: Text, u: Unit) { s != [] && s[0] == u }

  function HexValue(u: Unit): Option<nat> {
    if IsDigit(u) then Some(u - 0x30)
    else if 0x61 <= u <= 0x66 then Some(u - 0x57)
    else if 0x41 <= u <= 0x46 then Some(u - 0x37)
    else None
  }

  /** The code unit written by four hexadecimal digits. */
  function ParseHex4(s: Text): (r: Option<Unit>)
    requires |s| >= 4
  {
    var a, b, c, d := HexValue(s[0]), HexValue(s[1]), HexValue(s[2]), HexValue(s[3]);
    if a.Some? && b.Some? && c.Some? && d.Some? && a.value < 16 && b.value < 16 && c.value < 16 && d.value < 16
    then Some(((a.value * 0x10 + b.value) * 0x10 + c.value) * 0x10 + d.value)
    else None
  }

  function SimpleEscape(u: Unit): Option<Unit> {
    if u == QUOTE || u == BACKSLASH || u == SLASH then Some(u)
    else if u == LOWER_B then Some(BACKSPACE)
    else if u == LOWER_F then Some(FF)
    else if u == LOWER_N then Some(LF)
    else if u == LOWER_R then Some(CR)
    else if u == LOWER_T then Some(TAB)
    else None
  }

  /** The rest of a string literal, after its opening quote. */
  function ParseString(s: Text): (r: Option<(Text, Text)>)
    ensures r.Some? ==> |r.value.1| < |s|
  {
    if s == [] || s[0] < SPACE then None
    else if s[0] == QUOTE then Some(([], s[1..]))
    else if s[0] != BACKSLASH then Prefixed(s[0], ParseString(s[1..]))
    else if |s| >= 6 && s[1] == LOWER_U then
      match ParseHex4(s[2..6])
      case None => None
      case Some(u) => Prefixed(u, ParseString(s[6..]))
    else if |s| >= 2 then
      match SimpleEscape(s[1])
      case None => None
      case Some(u) => Prefixed(u, ParseString(s[2..]))
    else None
  }

  function Prefixed(u: Unit, r: Option<(Text, Text)>): Option<(Text, Text)> {
    if r.None? then None else Some(([u] + r.value.0, r.value.1))
  }

  /** The longest prefix made of number characters, and what follows. */
  function NumberRun(s: Text): (r: (Text, Text))
    ensures |r.0| + |r.1| == |s|
  {
    if s != [] && IsNumberUnit(s[0]) then
      var (t, rest) := NumberRun(s[1..]);
      ([s[0]] + t, rest)
    else ([], s)
  }

  function ParseNumber(s: Text): (r: Option<(Value, Text)>)
    ensures r.Some? ==> |r.value.1| < |s|
  {
    var (t, rest) := NumberRun(s);
    if IsNumber(t) then Some((Num(t), rest)) else None
  }

  function ParseWord(s: Text, word: Text, v: Value): (r: Option<(Value, Text)>)
    requires word != []
    ensures r.Some? ==> |r.value.1| < |s|
  {
    if word <= s then Some((v, s[|word|..])) else None
  }

  /** JSON.parse keeps the last value of a repeated key, at the key's first position. */
  function Put(fields: seq<Field>, k: Text, v: Value): seq<Field> {
    if fields == [] then [Field(k, v)]
    else if fields[0].key == k then [Field(k, v)] + fields[1..]
    else [fields[0]] + Put(fields[1..], k, v)
  }

  /** A value at the start of s (white space before it already skipped). */
  function ParseValue(s: Text): (r: Option<(Value, Text)>)
    ensures r.Some? ==> |r.value.1| < |s|
    decreases |s|, 0
  {
    if s == [] then None
    else if s[0] == QUOTE then
      match ParseString(s[1..])
      case None => None
      case Some((t, rest)) => Some((Str(t), rest))
    else if s[0] == OPEN_BRACE then
      var s1 := SkipSpace(s[1..]);
      if StartsWith(s1, CLOSE_BRACE) then Some((Obj([]), s1[1..])) else ParseMembers(s1, [])
    else if s[0] == OPEN_BRACKET then
      var s1 := SkipSpace(s[1..]);
      if StartsWith(s1, CLOSE_BRACKET) then Some((Arr([]), s1[1..])) else ParseItems(s1, [])
    else if s[0] == LOWER_T then ParseWord(s, TRUE_TEXT, Bool(true))
    else if s[0] == LOWER_F then ParseWord(s, FALSE_TEXT, Bool(false))
    else if s[0] == LOWER_N then ParseWord(s, NULL_TEXT, Null)
    else ParseNumber(s)
  }

  /** `"key" : value` pairs up to the closing brace. */
  function ParseMembers(s: Text, acc: seq<Field>): (r: Option<(Value, Text)>)
    ensures r.Some? ==> |r.value.1| < |s|
    decreases |s|, 1
  {
    if !StartsWith(s, QUOTE) then None
    else
      match ParseString(s[1..])
      case None => None
      case Some((k, s2)) =>
        var s3 := SkipSpace(s2);
        if !StartsWith(s3, COLON) then None
        else
          match ParseValue(SkipSpace(s3[1..]))
          case None => None
          case Some((v, s4)) =>
            var s5 := SkipSpace(s4);
            if StartsWith(s5, COMMA) then ParseMembers(SkipSpace(s5[1..]), Put(acc, k, v))
            else if StartsWith(s5, CLOSE_BRACE) then Some((Obj(Put(acc, k, v)), s5[1..]))
            else None
  }

  /** Values up to the closing bracket. */
  function ParseItems(s: Text, acc: seq<Value>): (r: Option<(Value, Text)>)
    ensures r.Some? ==> |r.value.1| < |s|
    decreases |s|, 1
  {
    match ParseValue(s)
    case None => None
    case Some((v, s4)) =>
      var s5 := SkipSpace(s4);
      if StartsWith(s5, COMMA) then ParseItems(SkipSpace(s5[1..]), acc + [v])
      else if StartsWith(s5, CLOSE_BRACKET) then Some((Arr(acc + [v]), s5[1..]))
      else None
  }

  /** JSON.parse of a whole text. */
  function Parse(s: Text): Option<Value> {
    match ParseValue(SkipSpace(s))
    case None => None
    case Some((v, rest)) => if SkipSpace(rest) == [] then Some(v) else None
  }
}
