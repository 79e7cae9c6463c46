/** JavaScript strings: sequences of UTF-16 code units. */
module Text {
  import opened Base

  type Unit = u: int | 0 <= u < 0x1_0000
  type Text = seq<Unit>

  const BACKSPACE: Unit := 0x08
  const TAB: Unit := 0x09
  const LF: Unit := 0x0A
  const FF: Unit := 0x0C
  const CR: Unit := 0x0D
  const SPACE: Unit := 0x20
  const QUOTE: Unit := 0x22
  const STAR: Unit := 0x2A
  const PLUS: Unit := 0x2B
  const COMMA: Unit := 0x2C
  const MINUS: Unit := 0x2D
  const DOT: Unit := 0x2E
  const SLASH: Unit := 0x2F
  const ZERO: Unit := 0x30
  const NINE: Unit := 0x39
  const COLON: Unit := 0x3A
  const UPPER_E: Unit := 0x45
  const OPEN_BRACKET: Unit := 0x5B
  const BACKSLASH: Unit := 0x5C
  const CLOSE_BRACKET: Unit := 0x5D
  const LOWER_B: Unit := 0x62
  const LOWER_E: Unit := 0x65
  const LOWER_F: Unit := 0x66
  const LOWER_N: Unit := 0x6E
  const LOWER_R: Unit := 0x72
  const LOWER_T: Unit := 0x74
  const LOWER_U: Unit := 0x75
  const OPEN_BRACE: Unit := 0x7B
  const CLOSE_BRACE: Unit := 0x7D

  /** The text of a string of ASCII characters. */
  function Ascii(s: string): (t: Text) {
    seq(|s|, i requires 0 <= i < |s| => UnitOf(s[i]))
  }

  function UnitOf(c: char): Unit { c as int % 0x1_0000 }

  lemma AsciiAppend(a: string, b: string)
    ensures Ascii(a + b) == Ascii(a) + Ascii(b)
  {
  }

  const TRUE_TEXT: Text := [0x74, 0x72, 0x75, 0x65]
  const FALSE_TEXT: Text := [0x66, 0x61, 0x6C, 0x73, 0x65]
  const NULL_TEXT: Text := [0x6E, 0x75, 0x6C, 0x6C]

  predicate IsDigit(u: Unit) { ZERO <= u <= NINE }

  predicate IsHighSurrogate(u: Unit) { 0xD800 <= u <= 0xDBFF }

  predicate IsLowSurrogate(u: Unit) { 0xDC00 <= u <= 0xDFFF }

  /** JavaScript's default order of strings: by code unit. */
  predicate TextLess(a: Text, b: Text) {
    if b == [] then false
    else if a == [] then true
    else a[0] < b[0] || (a[0] == b[0] && TextLess(a[1..], b[1..]))
  }

  lemma {:induction false} LessIsTotal(a: Text, b: Text)
    ensures TextLess(a, b) || TextLess(b, a) || a == b
    ensures !(TextLess(a, b) && TextLess(b, a))
    ensures !TextLess(a, a)
  {
    if a != [] && b != [] {
      LessIsTotal(a[1..], b[1..]);
      assert a == [a[0]] + a[1..] && b == [b[0]] + b[1..];
    }
    if a != [] { LessIsTotal(a[1..], a[1..]); }
  }

  lemma {:induction false} LessIsTransitive(a: Text, b: Text, c: Text)
    requires TextLess(a, b) && TextLess(b, c)
    ensures TextLess(a, c)
  {
    if a != [] && a[0] == b[0] == c[0] {
      LessIsTransitive(a[1..], b[1..], c[1..]);
    }
  }

  lemma NotLess(a: Text, b: Text, c: Text)
    requires !TextLess(b, a) && !TextLess(c, b)
    ensures !TextLess(c, a)
  {
    LessIsTotal(a, b);
    LessIsTotal(b, c);
    LessIsTotal(a, c);
    if TextLess(a, b) && TextLess(b, c) { LessIsTransitive(a, b, c); }
  }

  /** parts.join(sep) */
  function Join(parts: seq<Text>, sep: Text): Text {
    if parts == [] then [] else if |parts| == 1 then parts[0] else parts[0] + (sep + Join(parts[1..], sep))
  }

  lemma JoinCons(first: Text, parts: seq<Text>, sep: Text)
    requires parts != []
    ensures Join([first] + parts, sep) == first + (sep + Join(parts, sep))
  {
    assert ([first] + parts)[1..] == parts;
  }

  lemma {:induction false} JoinPush(parts: seq<Text>, last: Text, sep: Text)
    requires parts != []
    ensures Join(parts + [last], sep) == Join(parts, sep) + (sep + last)
  {
    hide Join;
    var first, rest := parts[0], parts[1..];
    if rest == [] {
      assert parts == [first];
      JoinCons(first, [last], sep);
      JoinOne(first, sep);
      JoinOne(last, sep);
    } else {
      assert parts == [first] + rest && parts + [last] == [first] + (rest + [last]);
      JoinCons(first, rest + [last], sep);
      JoinCons(first, rest, sep);
      JoinPush(rest, last, sep);
      Assoc(sep, Join(rest, sep), sep + last);
      Assoc(first, sep + Join(rest, sep), sep + last);
    }
  }

  lemma JoinOne(part: Text, sep: Text)
    ensures Join([part], sep) == part
  {
  }
}
