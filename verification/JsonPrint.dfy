/** JSON.stringify without indentation. */
module JsonPrint {
  import opened Text
  import opened JsonValue

  function HexDigit(d: int): Unit
    requires 0 <= d < 16
  {
    if d < 10 then 0x30 + d else 0x57 + d
  }

  function UnicodeEscape(u: Unit): Text {
    [BACKSLASH, LOWER_U,
     HexDigit(u / 0x10 / 0x10 / 0x10), HexDigit(u / 0x10 / 0x10 % 0x10), HexDigit(u / 0x10 % 0x10), HexDigit(u % 0x10)]
  }

  /** How one code unit that is not half of a surrogate pair is printed inside a string. */
  function EscapeUnit(u: Unit): Text {
    if u == BACKSPACE then [BACKSLASH, LOWER_B]
    else if u == TAB then [BACKSLASH, LOWER_T]
    else if u == LF then [BACKSLASH, LOWER_N]
    else if u == FF then [BACKSLASH, LOWER_F]
    else if u == CR then [BACKSLASH, LOWER_R]
    else if u == QUOTE then [BACKSLASH, QUOTE]
    else if u == BACKSLASH then [BACKSLASH, BACKSLASH]
    else if u < SPACE || IsHighSurrogate(u) || IsLowSurrogate(u) then UnicodeEscape(u)
    else [u]
  }

  function Escape(t: Text): Text {
    if t == [] then []
    else if |t| > 1 && IsHighSurrogate(t[0]) && IsLowSurrogate(t[1]) then [t[0], t[1]] + Escape(t[2..])
    else EscapeUnit(t[0]) + Escape(t[1..])
  }

  function Quote(t: Text): Text { [QUOTE] + Escape(t) + [QUOTE] }

  function Separator(more: bool): Text { if more then [COMMA] else [] }

  /** JSON.stringify of a value without undefined parts. */
  function Stringify(v: Value): Text {
    match v
    case Undefined => []
    case Null => NULL_TEXT
    case Bool(b) => if b then TRUE_TEXT else FALSE_TEXT
    case Num(t) => t
    case Str(s) => Quote(s)
    case Arr(items) => [OPEN_BRACKET] + Items(items, 0) + [CLOSE_BRACKET]
    case Obj(fields) => [OPEN_BRACE] + Members(fields, 0) + [CLOSE_BRACE]
  }

  function Items(items: seq<Value>, i: nat): Text
    requires i <= |items|
    decreases Arr(items), |items| - i
  {
    if i == |items| then []
    else Stringify(items[i]) + (Separator(i + 1 < |items|) + Items(items, i + 1))
  }

  function Members(fields: seq<Field>, i: nat): Text
    requires i <= |fields|
    decreases Obj(fields), |fields| - i
  {
    if i == |fields| then []
    else Quote(fields[i].key) + ([COLON] + (Stringify(fields[i].value) + (Separator(i + 1 < |fields|) + Members(fields, i + 1))))
  }
}
