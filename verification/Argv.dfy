/** The command line between the dashboard server, which prints it, and the client, which parses it. */
module Argv {
  import opened Base

  // ---------------------------------------------------------------- numbers

  predicate IsDigit(c: char) { '0' <= c <= '9' }

  predicate AllDigits(s: string) { s != "" && forall c <- s :: IsDigit(c) }

  function DigitValue(c: char): nat
    requires IsDigit(c)
  {
    c as int - '0' as int
  }

  function ValueOf(s: string): nat
    requires forall c <- s :: IsDigit(c)
  {
    if s == "" then 0 else ValueOf(s[..|s| - 1]) * 10 + DigitValue(s[|s| - 1])
  }

  function Decimal(n: nat): (s: string)
    ensures AllDigits(s)
  {
    (if n < 10 then "" else Decimal(n / 10)) + [('0' as int + n % 10) as char]
  }

  /** How JavaScript prints an integer (one below 10^21, as all that reach the server are). */
  function PrintInt(n: int): string { if n < 0 then "-" + Decimal(-n) else Decimal(n) }

  lemma {:induction false} ValueOfDecimal(n: nat)
    ensures ValueOf(Decimal(n)) == n
    decreases n
  {
    var s := Decimal(n);
    assert s[|s| - 1] == ('0' as int + n % 10) as char;
    if n >= 10 {
      ValueOfDecimal(n / 10);
      assert s[..|s| - 1] == Decimal(n / 10);
    } else {
      assert s[..|s| - 1] == "";
    }
  }

  /** White space as Rust's trim has it. */
  predicate IsSpace(c: char) {
    var u := c as int;
    0x09 <= u <= 0x0D || u == 0x20 || u == 0x85 || u == 0xA0 || u == 0x1680 || 0x2000 <= u <= 0x200A
    || u == 0x2028 || u == 0x2029 || u == 0x202F || u == 0x205F || u == 0x3000
  }

  function TrimStart(s: string): string { if s != "" && IsSpace(s[0]) then TrimStart(s[1..]) else s }

  function TrimEnd(s: string): string
    decreases |s|
  {
    if s != "" && IsSpace(s[|s| - 1]) then TrimEnd(s[..|s| - 1]) else s
  }

  function Trim(s: string): string { TrimEnd(TrimStart(s)) }

  lemma NothingToTrim(s: string)
    requires s != "" ==> !IsSpace(s[0]) && !IsSpace(s[|s| - 1])
    ensures Trim(s) == s
  {
  }

  lemma PrintedEnds(n: int)
    ensures var s := PrintInt(n); s != "" && !IsSpace(s[0]) && !IsSpace(s[|s| - 1])
  {
    var d := Decimal(if n < 0 then -n else n);
    assert d[0] in d && d[|d| - 1] in d;
  }

  /** How a text that is no plain integer reads as a 64-bit float: none if it is not a finite number. */
  type FloatReader = string -> Option<real>

  /** js_number: none stands for NaN and the infinities. Only integers up to 1000 matter below, and these are
      exact. */
  function JsNumber(float: FloatReader, value: string): Option<real> {
    var t := Trim(value);
    if t == "" then Some(0.0)
    else if AllDigits(t) then Some(ValueOf(t) as real)
    else if t[0] == '-' && AllDigits(t[1..]) then Some(-(ValueOf(t[1..]) as real))
    else float(t)
  }

  datatype ParseError = BadPriority | BadColor | MissingValue | BadSize | NoCommand

  function ParsePriority(float: FloatReader, value: string): Result<int, ParseError> {
    var n := JsNumber(float, value);
    if n.None? || n.value.Floor as real != n.value then Err(BadPriority)
    else if !(0.0 <= n.value <= 1000.0) then Err(BadPriority)
    else Ok(n.value.Floor)
  }

  /** A printed priority parses back exactly when it is in range; no other integer gets through. */
  lemma PrintedPriority(float: FloatReader, n: int)
    ensures ParsePriority(float, PrintInt(n)) == if 0 <= n <= 1000 then Ok(n) else Err(BadPriority)
  {
    PrintedEnds(n);
    NothingToTrim(PrintInt(n));
    PrintedNumber(float, n);
    assert (n as real).Floor == n;
  }

  lemma PrintedNumber(float: FloatReader, n: int)
    requires Trim(PrintInt(n)) == PrintInt(n)
    ensures JsNumber(float, PrintInt(n)) == Some(n as real)
  {
    if n < 0 {
      ValueOfDecimal(-n);
      SignedDigits(float, Decimal(-n));
    } else {
      ValueOfDecimal(n);
    }
  }

  lemma SignedDigits(float: FloatReader, d: string)
    requires AllDigits(d) && Trim("-" + d) == "-" + d
    ensures JsNumber(float, "-" + d) == Some(-(ValueOf(d) as real))
  {
    var s := "-" + d;
    assert s[0] in s && s[1..] == d;
  }

  /** Rust's parse of a u16. */
  function ParseU16(value: string): Result<int, ParseError> {
    var digits := if value != "" && value[0] == '+' then value[1..] else value;
    if AllDigits(digits) && ValueOf(digits) <= 0xFFFF then Ok(ValueOf(digits)) else Err(BadSize)
  }

  lemma PrintedSize(n: int)
    ensures ParseU16(PrintInt(n)) == if 0 <= n <= 0xFFFF then Ok(n) else Err(BadSize)
  {
    var s := PrintInt(n);
    PrintedEnds(n);
    assert s[0] in s;
    if n >= 0 { ValueOfDecimal(n); } else { assert s[0] == '-'; }
  }

  // ---------------------------------------------------------------- colors

  datatype AnsiColor = Black | Red | Green | Yellow | Blue | Magenta | Cyan | White

  datatype ColorFlag = NoColor | Auto | Color(color: AnsiColor)

  function ColorName(c: AnsiColor): string {
    match c
    case Black => "black" case Red => "red" case Green => "green" case Yellow => "yellow"
    case Blue => "blue" case Magenta => "magenta" case Cyan => "cyan" case White => "white"
  }

  function WireName(c: ColorFlag): string {
    match c case NoColor => "none" case Auto => "auto" case Color(color) => ColorName(color)
  }

  function ToAsciiLower(s: string): string {
    seq(|s|, i requires 0 <= i < |s| => if 'A' <= s[i] <= 'Z' then (s[i] as int + 32) as char else s[i])
  }

  function FromName(name: string): Option<AnsiColor> {
    if name == "black" then Some(Black) else if name == "red" then Some(Red)
    else if name == "green" then Some(Green) else if name == "yellow" then Some(Yellow)
    else if name == "blue" then Some(Blue) else if name == "magenta" then Some(Magenta)
    else if name == "cyan" then Some(Cyan) else if name == "white" then Some(White) else None
  }

  function ParseColorMode(value: string): Result<ColorFlag, ParseError> {
    var normalized := ToAsciiLower(Trim(value));
    if normalized == "auto" then Ok(Auto)
    else if normalized == "none" then Ok(NoColor)
    else match FromName(normalized) case Some(c) => Ok(Color(c)) case None => Err(BadColor)
  }

  lemma PrintedColor(c: ColorFlag)
    ensures ParseColorMode(WireName(c)) == Ok(c)
  {
    var s := WireName(c);
    NothingToTrim(s);
    assert ToAsciiLower(s) == s;
  }

  // ---------------------------------------------------------------- the builders

  /** What the server says about a session besides its command; none where a property is undefined. `color:
      null` prints like `none`. */
  datatype Meta = Meta(priority: Option<int>, color: Option<ColorFlag>, name: Option<string>, theme: Option<string>)

  function Shown(s: Option<string>): Option<string> { if s == Some("") then None else s }

  function Flag(key: string, value: Option<string>): seq<string> {
    if value.None? then [] else [key, value.value]
  }

  function MetaArgs(m: Meta): seq<string> {
    Flag("--priority", if m.priority.None? then None else Some(PrintInt(m.priority.value)))
    + (Flag("--color", if m.color.None? then None else Some(WireName(m.color.value)))
       + (Flag("--name", Shown(m.name)) + Flag("--theme", Shown(m.theme))))
  }

  function RunArgs(command: seq<string>, m: Meta): seq<string> {
    ["run", "--headless"] + (MetaArgs(m) + command)
  }

  datatype SpawnInput = SpawnInput(headless: bool, cwd: string, cols: int, rows: int, meta: Meta)

  function PlaceArgs(i: SpawnInput): seq<string> {
    (if i.headless then ["--headless"] else []) + ["--cwd", i.cwd, "--cols", PrintInt(i.cols), "--rows", PrintInt(i.rows)]
  }

  function SpawnArgs(command: seq<string>, i: SpawnInput): seq<string> {
    ["__spawn"] + (PlaceArgs(i) + (MetaArgs(i.meta) + command))
  }

  method PushMeta(args: seq<string>, m: Meta) returns (out: seq<string>)
    ensures out == args + MetaArgs(m)
  {
    out := args;
    if m.priority.Some? { out := PushFlag(out, "--priority", PrintInt(m.priority.value)); }
    if m.color.Some? { out := PushFlag(out, "--color", WireName(m.color.value)); }
    if m.name.Some? && m.name.value != "" { out := PushFlag(out, "--name", m.name.value); }
    if m.theme.Some? && m.theme.value != "" { out := PushFlag(out, "--theme", m.theme.value); }
    Concat5(args, Flag("--priority", if m.priority.None? then None else Some(PrintInt(m.priority.value))),
            Flag("--color", if m.color.None? then None else Some(WireName(m.color.value))),
            Flag("--name", Shown(m.name)), Flag("--theme", Shown(m.theme)));
  }

  method PushFlag(args: seq<string>, key: string, value: string) returns (out: seq<string>)
    ensures out == args + Flag(key, Some(value))
  {
    out := args + [key, value];
  }

  lemma Concat5(a: seq<string>, b: seq<string>, c: seq<string>, d: seq<string>, e: seq<string>)
    ensures (((a + b) + c) + d) + e == a + (b + (c + (d + e)))
    ensures b == [] ==> a + b == a
    ensures c == [] ==> (a + b) + c == a + b
    ensures d == [] ==> ((a + b) + c) + d == (a + b) + c
    ensures e == [] ==> (((a + b) + c) + d) + e == ((a + b) + c) + d
  {
  }

  method BuildRunArgs(command: seq<string>, m: Meta) returns (args: seq<string>)
    ensures args == RunArgs(command, m)
  {
    var flags := PushMeta([], m);
    args := ["run", "--headless"] + flags + command;
  }

  method BuildSpawnArgs(command: seq<string>, input: SpawnInput) returns (args: seq<string>)
    ensures args == SpawnArgs(command, input)
  {
    args := PushPlace(["__spawn"], input);
    args := PushMeta(args, input.meta);
    args := args + command;
    Concat4(["__spawn"], PlaceArgs(input), MetaArgs(input.meta), command);
  }

  method PushPlace(args: seq<string>, input: SpawnInput) returns (out: seq<string>)
    ensures out == args + PlaceArgs(input)
  {
    out := args;
    if input.headless { out := out + ["--headless"]; }
    out := out + ["--cwd", input.cwd, "--cols", PrintInt(input.cols), "--rows", PrintInt(input.rows)];
  }

  lemma Concat4(a: seq<string>, b: seq<string>, c: seq<string>, d: seq<string>)
    ensures ((a + b) + c) + d == a + (b + (c + d))
  {
  }

  // ---------------------------------------------------------------- the parser

  datatype SessionFlags = SessionFlags(
    priority: Option<int>, color: Option<ColorFlag>, name: Option<string>, theme: Option<string>)

  const NO_FLAGS := SessionFlags(None, None, None, None)

  function IndexOf(s: string, c: char): (i: nat)
    ensures i <= |s|
  {
    if s == "" || s[0] == c then 0 else 1 + IndexOf(s[1..], c)
  }

  /** The flag name of a token, and its value if the token is of the form `--flag=value`. */
  function KeyOf(token: string): string {
    if "--" <= token then token[..IndexOf(token, '=')] else token
  }

  function InlineValue(token: string): Option<string> {
    var i := IndexOf(token, '=');
    if "--" <= token && i < |token| then Some(token[i + 1..]) else None
  }

  predicate IsSessionKey(key: string) { key == "--priority" || key == "--color" || key == "--name" || key == "--theme" }

  /** One recognized flag with its value. */
  function SetFlag(float: FloatReader, flags: SessionFlags, key: string, value: string): Result<SessionFlags, ParseError> {
    if key == "--priority" then
      match ParsePriority(float, value) case Err(e) => Err(e) case Ok(p) => Ok(flags.(priority := Some(p)))
    else if key == "--color" then
      match ParseColorMode(value) case Err(e) => Err(e) case Ok(c) => Ok(flags.(color := Some(c)))
    else if key == "--name" then Ok(flags.(name := Some(value)))
    else Ok(flags.(theme := Some(value)))
  }

  /** parse_session_flags: leading flags, then the tokens from the first other one on. */
  function SessionFlagsFrom(float: FloatReader, flags: SessionFlags, tokens: seq<string>): Result<(SessionFlags, seq<string>), ParseError>
    decreases |tokens|
  {
    if tokens == [] || !IsSessionKey(KeyOf(tokens[0])) then Ok((flags, tokens))
    else if InlineValue(tokens[0]).None? && |tokens| == 1 then Err(MissingValue)
    else
      var inline := InlineValue(tokens[0]);
      match SetFlag(float, flags, KeyOf(tokens[0]), if inline.Some? then inline.value else tokens[1])
      case Err(e) => Err(e)
      case Ok(next) => SessionFlagsFrom(float, next, tokens[if inline.Some? then 1 else 2..])
  }

  datatype Parsed =
    | Run(argv: seq<string>, headless: bool, flags: SessionFlags)
    | Spawn(argv: seq<string>, place: Place, flags: SessionFlags)
    | OtherCommand

  /** The options of `__spawn` that come before everything else. */
  datatype Place = Place(headless: bool, cwd: Option<string>, cols: Option<int>, rows: Option<int>)

  const NO_PLACE := Place(false, None, None, None)

  predicate IsPlaceKey(token: string) { token == "--headless" || token == "--cwd" || token == "--cols" || token == "--rows" }

  function PlaceFrom(place: Place, tokens: seq<string>): Result<(Place, seq<string>), ParseError>
    decreases |tokens|
  {
    if tokens == [] || !IsPlaceKey(tokens[0]) then Ok((place, tokens))
    else if tokens[0] == "--headless" then PlaceFrom(place.(headless := true), tokens[1..])
    else if |tokens| == 1 then Err(MissingValue)
    else if tokens[0] == "--cwd" then PlaceFrom(place.(cwd := Some(tokens[1])), tokens[2..])
    else
      match ParseU16(tokens[1])
      case Err(e) => Err(e)
      case Ok(n) =>
        PlaceFrom(if tokens[0] == "--cols" then place.(cols := Some(n)) else place.(rows := Some(n)), tokens[2..])
  }

  function DropHeadless(tokens: seq<string>): seq<string> {
    if tokens != [] && tokens[0] == "--headless" then DropHeadless(tokens[1..]) else tokens
  }

  function ParseSpawn(float: FloatReader, rest: seq<string>): Result<Parsed, ParseError> {
    match PlaceFrom(NO_PLACE, rest)
    case Err(e) => Err(e)
    case Ok((place, tokens)) =>
      match SessionFlagsFrom(float, NO_FLAGS, tokens)
      case Err(e) => Err(e)
      case Ok((flags, argv)) => if argv == [] then Err(NoCommand) else Ok(Spawn(argv, place, flags))
  }

  function ParseRun(float: FloatReader, rest: seq<string>): Result<Parsed, ParseError> {
    match SessionFlagsFrom(float, NO_FLAGS, DropHeadless(rest))
    case Err(e) => Err(e)
    case Ok((flags, argv)) => if argv == [] then Err(NoCommand) else Ok(Run(argv, DropHeadless(rest) != rest, flags))
  }

  /** The two arms of parse_args that the server's command lines reach. */
  function Parse(float: FloatReader, argv: seq<string>): Result<Parsed, ParseError> {
    if argv != [] && argv[0] == "run" then ParseRun(float, argv[1..])
    else if argv != [] && argv[0] == "__spawn" then ParseSpawn(float, argv[1..])
    else Ok(OtherCommand)
  }

  method ParseSessionFlags(float: FloatReader, tokens: seq<string>) returns (r: Result<(SessionFlags, seq<string>), ParseError>)
    ensures r == SessionFlagsFrom(float, NO_FLAGS, tokens)
  {
    var flags := NO_FLAGS;
    var i := 0;
    assert tokens[0..] == tokens;
    while i < |tokens|
      invariant i <= |tokens|
      invariant SessionFlagsFrom(float, NO_FLAGS, tokens) == SessionFlagsFrom(float, flags, tokens[i..])
    {
      var token := tokens[i];
      var key, inline := KeyOf(token), InlineValue(token);
      if !IsSessionKey(key) { break; }
      ghost var from := i;
      var raw;
      if inline.Some? {
        raw := inline.value;
      } else {
        if i + 1 == |tokens| { return Err(MissingValue); }
        i := i + 1;
        raw := tokens[i];
      }
      var next := SetFlag(float, flags, key, raw);
      if next.Err? { return Err(next.error); }
      flags := next.value;
      i := i + 1;
      assert tokens[from..][i - from..] == tokens[i..];
    }
    r := Ok((flags, tokens[i..]));
  }

  lemma AppendAt(tokens: seq<string>, rest: seq<string>, i: nat)
    requires i < |rest|
    ensures tokens + rest[i..] == (tokens + [rest[i]]) + rest[i + 1..]
    ensures tokens == [] ==> tokens + rest[i..] == rest[i..]
  {
  }

  lemma NoPlaceLeft(place: Place)
    ensures PlaceFrom(place, []) == Ok((place, []))
  {
  }

  lemma PlaceFromAt(place: Place, rest: seq<string>, i: nat)
    requires i < |rest|
    ensures
      PlaceFrom(place, rest[i..]) ==
        if !IsPlaceKey(rest[i]) then Ok((place, rest[i..]))
        else if rest[i] == "--headless" then PlaceFrom(place.(headless := true), rest[i + 1..])
        else if i + 1 == |rest| then Err(MissingValue)
        else if rest[i] == "--cwd" then PlaceFrom(place.(cwd := Some(rest[i + 1])), rest[i + 2..])
        else if ParseU16(rest[i + 1]).Err? then Err(ParseU16(rest[i + 1]).error)
        else
          var n := Some(ParseU16(rest[i + 1]).value);
          PlaceFrom(if rest[i] == "--cols" then place.(cols := n) else place.(rows := n), rest[i + 2..])
  {
    hide ParseU16;
    assert rest[i..][1..] == rest[i + 1..];
    if i + 1 < |rest| { assert rest[i..][2..] == rest[i + 2..]; }
  }

  method ParseSpawnTokens(float: FloatReader, rest: seq<string>) returns (r: Result<Parsed, ParseError>)
    ensures r == ParseSpawn(float, rest)
  {
    hide ParseU16, SessionFlagsFrom, PlaceFrom;
    var place := NO_PLACE;
    var restTokens: seq<string> := [];
    var i := 0;
    assert rest[0..] == rest;
    while i < |rest|
      invariant i <= |rest|
      invariant restTokens == [] ==> PlaceFrom(NO_PLACE, rest) == PlaceFrom(place, rest[i..])
      invariant restTokens != [] ==> PlaceFrom(NO_PLACE, rest) == Ok((place, restTokens + rest[i..]))
    {
      var token := rest[i];
      PlaceFromAt(place, rest, i);
      AppendAt(restTokens, rest, i);
      i := i + 1;
      if token == "--headless" && restTokens == [] {
        place := place.(headless := true);
      } else if IsPlaceKey(token) && restTokens == [] {
        if i == |rest| { return Err(MissingValue); }
        var value := rest[i];
        i := i + 1;
        if token == "--cwd" {
          place := place.(cwd := Some(value));
        } else {
          var n := ParseU16(value);
          if n.Err? { return Err(n.error); }
          place := if token == "--cols" then place.(cols := Some(n.value)) else place.(rows := Some(n.value));
        }
      } else {
        restTokens := restTokens + [token];
      }
    }
    assert restTokens + rest[i..] == restTokens;
    NoPlaceLeft(place);
    var flags := ParseSessionFlags(float, restTokens);
    if flags.Err? { return Err(flags.error); }
    if flags.value.1 == [] { return Err(NoCommand); }
    r := Ok(Spawn(flags.value.1, place, flags.value.0));
  }

  method ParseRunTokens(float: FloatReader, rest: seq<string>) returns (r: Result<Parsed, ParseError>)
    ensures r == ParseRun(float, rest)
  {
    var headless, sawOther := false, false;
    var remaining: seq<string> := [];
    assert rest[0..] == rest;
    DropHeadlessShortens(rest);
    for i := 0 to |rest|
      invariant sawOther <==> remaining != []
      invariant if sawOther then DropHeadless(rest) == remaining + rest[i..] else DropHeadless(rest) == DropHeadless(rest[i..])
      invariant headless ==> |DropHeadless(rest)| < |rest|
      invariant !sawOther ==> (headless <==> i > 0)
      invariant sawOther && !headless ==> DropHeadless(rest) == rest
      invariant |DropHeadless(rest)| <= |rest|
    {
      assert rest[i..][1..] == rest[i + 1..];
      DropHeadlessShortens(rest[i + 1..]);
      if rest[i] == "--headless" && !sawOther && remaining == [] {
        headless := true;
      } else {
        assert remaining + rest[i..] == (remaining + [rest[i]]) + rest[i + 1..];
        sawOther := true;
        remaining := remaining + [rest[i]];
      }
    }
    assert remaining + rest[|rest|..] == remaining;
    var flags := ParseSessionFlags(float, remaining);
    if flags.Err? { return Err(flags.error); }
    if flags.value.1 == [] { return Err(NoCommand); }
    r := Ok(Run(flags.value.1, headless, flags.value.0));
  }

  lemma {:induction false} DropHeadlessShortens(tokens: seq<string>)
    ensures |DropHeadless(tokens)| <= |tokens|
  {
    if tokens != [] { DropHeadlessShortens(tokens[1..]); }
  }
}
