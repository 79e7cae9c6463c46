/** What the client reads from the command lines that the server prints. */
module ArgvRoundTrip {
  import opened Base
  import opened Argv

  // ---------------------------------------------------------------- session flags

  lemma {:induction false} NoEquals(s: string)
    requires '=' !in s
    ensures IndexOf(s, '=') == |s|
  {
    if s != "" { NoEquals(s[1..]); }
  }

  lemma PlainKey(key: string)
    requires IsSessionKey(key)
    ensures KeyOf(key) == key && InlineValue(key) == None
  {
    NoEquals(key);
  }

  /** A flag and its value, whatever the value looks like, are consumed together. */
  lemma FlagParses(float: FloatReader, flags: SessionFlags, key: string, value: Option<string>, rest: seq<string>)
    requires IsSessionKey(key)
    ensures SessionFlagsFrom(float, flags, Flag(key, value) + rest) ==
              if value.None? then SessionFlagsFrom(float, flags, rest)
              else if SetFlag(float, flags, key, value.value).Err? then Err(SetFlag(float, flags, key, value.value).error)
              else SessionFlagsFrom(float, SetFlag(float, flags, key, value.value).value, rest)
  {
    PlainKey(key);
    if value.None? {
      assert Flag(key, value) + rest == rest;
    } else {
      assert ([key, value.value] + rest)[2..] == rest;
    }
  }

  // ---------------------------------------------------------------- any flags a user types

  /** A session flag with its value, as one token with `=` or as two tokens. */
  datatype Typed = Typed(key: string, value: string, inline: bool)

  predicate IsFlagName(key: string) { key in {"--priority", "--color", "--name", "--theme"} }

  function TokensOf(f: Typed): seq<string> { if f.inline then [f.key + "=" + f.value] else [f.key, f.value] }

  function AllTokens(typed: seq<Typed>): seq<string> {
    if typed == [] then [] else TokensOf(typed[0]) + AllTokens(typed[1..])
  }

  /** The value of the last flag with this name. */
  function LastValue(typed: seq<Typed>, key: string): Option<string> {
    if typed == [] then None
    else if LastValue(typed[1..], key).Some? then LastValue(typed[1..], key)
    else if typed[0].key == key then Some(typed[0].value)
    else None
  }

  /** The error of the first flag whose value is not accepted. */
  function FirstError(float: FloatReader, typed: seq<Typed>): Option<ParseError> {
    if typed == [] then None
    else if typed[0].key == "--priority" && ParsePriority(float, typed[0].value).Err? then
      Some(ParsePriority(float, typed[0].value).error)
    else if typed[0].key == "--color" && ParseColorMode(typed[0].value).Err? then Some(ParseColorMode(typed[0].value).error)
    else FirstError(float, typed[1..])
  }

  /** The flags with the last value of each name, where there is one. */
  function Overlaid(float: FloatReader, flags: SessionFlags, typed: seq<Typed>): SessionFlags {
    var p, c, n, t := LastValue(typed, "--priority"), LastValue(typed, "--color"), LastValue(typed, "--name"), LastValue(typed, "--theme");
    SessionFlags(
      if p.Some? && ParsePriority(float, p.value).Ok? then Some(ParsePriority(float, p.value).value) else flags.priority,
      if c.Some? && ParseColorMode(c.value).Ok? then Some(ParseColorMode(c.value).value) else flags.color,
      if n.Some? then n else flags.name,
      if t.Some? then t else flags.theme)
  }

  lemma {:induction false} EqualsAt(key: string, value: string)
    requires '=' !in key
    ensures IndexOf(key + "=" + value, '=') == |key|
  {
    if key != "" {
      assert (key + "=" + value)[1..] == key[1..] + "=" + value;
      EqualsAt(key[1..], value);
    }
  }

  lemma InlineParts(key: string, value: string)
    requires IsFlagName(key)
    ensures KeyOf(key + "=" + value) == key && InlineValue(key + "=" + value) == Some(value)
  {
    EqualsAt(key, value);
    var token := key + "=" + value;
    assert token[..|key|] == key && token[|key| + 1..] == value;
    assert "--" <= token by { assert token[0] == key[0] && token[1] == key[1]; }
  }

  lemma TypedStep(float: FloatReader, flags: SessionFlags, f: Typed, rest: seq<string>)
    requires IsFlagName(f.key)
    ensures SessionFlagsFrom(float, flags, TokensOf(f) + rest) ==
              if SetFlag(float, flags, f.key, f.value).Err? then Err(SetFlag(float, flags, f.key, f.value).error)
              else SessionFlagsFrom(float, SetFlag(float, flags, f.key, f.value).value, rest)
  {
    hide KeyOf, InlineValue, SetFlag;
    if f.inline {
      InlineParts(f.key, f.value);
      assert (TokensOf(f) + rest)[1..] == rest;
    } else {
      PlainKey(f.key);
      assert (TokensOf(f) + rest)[2..] == rest;
    }
  }

  /** Whatever session flags a user types, in either form and any number of times: the last value of each name
      counts, the first value that is not accepted is the error, and the rest begins at the first token that is no
      session flag. */
  lemma {:induction false} TypedFlags(float: FloatReader, flags: SessionFlags, typed: seq<Typed>, rest: seq<string>)
    requires forall f <- typed :: IsFlagName(f.key)
    requires rest == [] || NotSessionFlag(rest[0])
    ensures SessionFlagsFrom(float, flags, AllTokens(typed) + rest) ==
              if FirstError(float, typed).Some? then Err(FirstError(float, typed).value)
              else Ok((Overlaid(float, flags, typed), rest))
    decreases |typed|
  {
    hide ParsePriority, ParseColorMode, SessionFlagsFrom, SetFlag, Overlaid;
    NoneOverlaid(float, flags);
    if typed == [] {
      assert AllTokens(typed) + rest == rest;
      SessionFlagsAtCommand(float, flags, rest);
    } else {
      var f := typed[0];
      assert f in typed;
      Assoc(TokensOf(f), AllTokens(typed[1..]), rest);
      TypedStep(float, flags, f, AllTokens(typed[1..]) + rest);
      var next := SetFlag(float, flags, f.key, f.value);
      SetFlagFails(float, flags, f.key, f.value);
      if next.Ok? {
        TypedFlags(float, next.value, typed[1..], rest);
        if FirstError(float, typed[1..]).None? { OverlaidStep(float, flags, typed); }
      }
    }
  }

  lemma NoneOverlaid(float: FloatReader, flags: SessionFlags)
    ensures Overlaid(float, flags, []) == flags
  {
  }

  lemma SetFlagFails(float: FloatReader, flags: SessionFlags, key: string, value: string)
    requires IsFlagName(key)
    ensures
      var next := SetFlag(float, flags, key, value);
      && (key == "--priority" ==>
            if ParsePriority(float, value).Err? then next == Err(ParsePriority(float, value).error) else next.Ok?)
      && (key == "--color" ==>
            if ParseColorMode(value).Err? then next == Err(ParseColorMode(value).error) else next.Ok?)
      && (key != "--priority" && key != "--color" ==> next.Ok?)
  {
  }

  lemma {:induction false} LastIsAccepted(float: FloatReader, typed: seq<Typed>)
    requires FirstError(float, typed).None?
    ensures LastValue(typed, "--priority").Some? ==> ParsePriority(float, LastValue(typed, "--priority").value).Ok?
    ensures LastValue(typed, "--color").Some? ==> ParseColorMode(LastValue(typed, "--color").value).Ok?
  {
    hide ParsePriority, ParseColorMode;
    if typed != [] { LastIsAccepted(float, typed[1..]); }
  }

  lemma OverlaidStep(float: FloatReader, flags: SessionFlags, typed: seq<Typed>)
    requires typed != [] && IsFlagName(typed[0].key) && FirstError(float, typed).None?
    requires SetFlag(float, flags, typed[0].key, typed[0].value).Ok?
    ensures Overlaid(float, SetFlag(float, flags, typed[0].key, typed[0].value).value, typed[1..]) == Overlaid(float, flags, typed)
  {
    hide ParsePriority, ParseColorMode;
    LastIsAccepted(float, typed[1..]);
  }

  // ---------------------------------------------------------------- values a user types

  /** The characters with Unicode's White_Space property. */
  predicate IsWhite(c: char) {
    c as int in {
      0x09, 0x0A, 0x0B, 0x0C, 0x0D, 0x20, 0x85, 0xA0, 0x1680, 0x2000, 0x2001, 0x2002, 0x2003, 0x2004, 0x2005, 0x2006, 0x2007,
      0x2008, 0x2009, 0x200A, 0x2028, 0x2029, 0x202F, 0x205F, 0x3000}
  }

  lemma SpacesAre(c: char)
    ensures IsSpace(c) <==> IsWhite(c)
  {
  }

  predicate Spaces(s: string) { forall c <- s :: IsWhite(c) }

  lemma {:induction false} TrimmedStart(s: string) returns (b: string)
    ensures Spaces(b) && s == b + TrimStart(s) && (TrimStart(s) != "" ==> !IsWhite(TrimStart(s)[0]))
  {
    hide IsWhite, IsSpace;
    b := "";
    if s != "" { SpacesAre(s[0]); }
    if s != "" && IsSpace(s[0]) {
      b := TrimmedStart(s[1..]);
      b := [s[0]] + b;
    }
  }

  lemma {:induction false} TrimmedEnd(s: string) returns (a: string)
    ensures Spaces(a) && s == TrimEnd(s) + a && (TrimEnd(s) != "" ==> !IsWhite(TrimEnd(s)[|TrimEnd(s)| - 1]))
    decreases |s|
  {
    hide IsWhite, IsSpace;
    a := "";
    if s != "" { SpacesAre(s[|s| - 1]); }
    if s != "" && IsSpace(s[|s| - 1]) {
      a := TrimmedEnd(s[..|s| - 1]);
      a := a + [s[|s| - 1]];
    }
  }

  /** A text without white space at its ends, with white space around it. */
  ghost predicate Around(s: string, b: string, w: string, a: string) {
    s == b + w + a && Spaces(b) && Spaces(a) && (w != "" ==> !IsWhite(w[0]) && !IsWhite(w[|w| - 1]))
  }

  lemma TrimmedAround(s: string) returns (b: string, a: string)
    ensures Around(s, b, Trim(s), a)
  {
    hide IsWhite, IsSpace;
    b := TrimmedStart(s);
    a := TrimmedEnd(TrimStart(s));
    assert s == b + Trim(s) + a;
    if Trim(s) != "" { assert Trim(s)[0] == TrimStart(s)[0]; }
  }

  /** There is only one such text. */
  lemma {:induction false} AroundIsTrim(s: string, b: string, w: string, a: string)
    requires Around(s, b, w, a)
    ensures Trim(s) == w
    decreases |a|, |b|
  {
    hide IsWhite, IsSpace;
    if s != "" { SpacesAre(s[0]); }
    if b != "" {
      assert b[0] in b && s[0] == b[0] && forall c <- b[1..] :: c in b;
      assert s[1..] == b[1..] + w + a;
      AroundIsTrim(s[1..], b[1..], w, a);
    } else if a != "" && w == "" {
      assert s == a && Around(s, a, "", "");
      AroundIsTrim(s, a, "", "");
    } else {
      assert TrimStart(s) == s;
      AroundIsTrimEnd(s, w, a);
    }
  }

  lemma {:induction false} AroundIsTrimEnd(s: string, w: string, a: string)
    requires s == w + a && Spaces(a) && (w != "" ==> !IsWhite(w[|w| - 1]))
    ensures TrimEnd(s) == w
    decreases |a|
  {
    hide IsWhite, IsSpace;
    if s != "" { SpacesAre(s[|s| - 1]); }
    if a != "" {
      assert a[|a| - 1] in a && s[|s| - 1] == a[|a| - 1] && forall c <- a[..|a| - 1] :: c in a;
      assert s[..|s| - 1] == w + a[..|a| - 1];
      AroundIsTrimEnd(s[..|s| - 1], w, a[..|a| - 1]);
    }
  }

  /** The word up to the case of ASCII letters. */
  predicate SameLetters(s: string, word: string) {
    |s| == |word| && forall i :: 0 <= i < |s| ==>
      s[i] == word[i] || ('A' <= s[i] <= 'Z' && s[i] as int + 32 == word[i] as int)
  }

  ghost predicate IsWord(value: string, word: string) {
    exists b: string, w: string, a: string :: Around(value, b, w, a) && SameLetters(w, word)
  }

  lemma WordIsTrimmed(value: string, word: string)
    requires word != "" && forall c <- word :: 'a' <= c <= 'z'
    ensures IsWord(value, word) <==> ToAsciiLower(Trim(value)) == word
  {
    var b, a := TrimmedAround(value);
    var t := Trim(value);
    if ToAsciiLower(t) == word {
      forall i | 0 <= i < |t| ensures t[i] == word[i] || ('A' <= t[i] <= 'Z' && t[i] as int + 32 == word[i] as int) {
        assert ToAsciiLower(t)[i] == word[i];
      }
      assert Around(value, b, t, a) && SameLetters(t, word);
    }
    if b', w, a' :| Around(value, b', w, a') && SameLetters(w, word) {
      AroundIsTrim(value, b', w, a');
      forall i | 0 <= i < |w| ensures ToAsciiLower(w)[i] == word[i] { assert word[i] in word; }
      assert ToAsciiLower(w) == word;
    }
  }

  /** A color flag is read from exactly these words, in any case and with white space around them. */
  lemma ColorIsRead(value: string)
    ensures ParseColorMode(value) ==
              if IsWord(value, "auto") then Ok(Auto)
              else if IsWord(value, "none") then Ok(NoColor)
              else if IsWord(value, "black") then Ok(Color(Black))
              else if IsWord(value, "red") then Ok(Color(Red))
              else if IsWord(value, "green") then Ok(Color(Green))
              else if IsWord(value, "yellow") then Ok(Color(Yellow))
              else if IsWord(value, "blue") then Ok(Color(Blue))
              else if IsWord(value, "magenta") then Ok(Color(Magenta))
              else if IsWord(value, "cyan") then Ok(Color(Cyan))
              else if IsWord(value, "white") then Ok(Color(White))
              else Err(BadColor)
  {
    hide IsWord, ToAsciiLower, Trim;
    WordIsTrimmed(value, "auto");
    WordIsTrimmed(value, "none");
    WordIsTrimmed(value, "black");
    WordIsTrimmed(value, "red");
    WordIsTrimmed(value, "green");
    WordIsTrimmed(value, "yellow");
    WordIsTrimmed(value, "blue");
    WordIsTrimmed(value, "magenta");
    WordIsTrimmed(value, "cyan");
    WordIsTrimmed(value, "white");
  }

  /** A priority is read from decimal digits with white space around them, with leading zeros or not, exactly if it is
      at most 1000; a minus only in front of zero; white space alone reads as 0. */
  lemma PriorityIsRead(float: FloatReader, value: string, b: string, minus: bool, digits: string, a: string)
    requires Around(value, b, (if minus then "-" else "") + digits, a)
    requires (forall c <- digits :: '0' <= c <= '9') && (minus ==> digits != "")
    ensures
      var n := ValueOf(digits);
      ParsePriority(float, value) == if n <= 1000 && (minus ==> n == 0) then Ok(n) else Err(BadPriority)
  {
    var w := (if minus then "-" else "") + digits;
    AroundIsTrim(value, b, w, a);
    if minus {
      assert w[0] == '-' && w[1..] == digits && !AllDigits(w) by { assert w[0] in w; }
    } else {
      assert w == digits;
    }
  }

  function Expected(m: Meta): SessionFlags {
    SessionFlags(m.priority, m.color, if m.name == Some("") then None else m.name, if m.theme == Some("") then None else m.theme)
  }

  predicate PriorityFits(m: Meta) { m.priority.Some? ==> 0 <= m.priority.value <= 1000 }

  lemma PriorityParses(float: FloatReader, p: Option<int>, rest: seq<string>)
    ensures SessionFlagsFrom(float, NO_FLAGS, Flag("--priority", if p.None? then None else Some(PrintInt(p.value))) + rest) ==
              if p.Some? && !(0 <= p.value <= 1000) then Err(BadPriority)
              else SessionFlagsFrom(float, NO_FLAGS.(priority := p), rest)
  {
    FlagParses(float, NO_FLAGS, "--priority", if p.None? then None else Some(PrintInt(p.value)), rest);
    if p.Some? { PrintedPriority(float, p.value); }
  }

  lemma ColorParses(float: FloatReader, flags: SessionFlags, c: Option<ColorFlag>, rest: seq<string>)
    requires flags.color.None?
    ensures SessionFlagsFrom(float, flags, Flag("--color", if c.None? then None else Some(WireName(c.value))) + rest) ==
              SessionFlagsFrom(float, flags.(color := c), rest)
  {
    FlagParses(float, flags, "--color", if c.None? then None else Some(WireName(c.value)), rest);
    if c.Some? { PrintedColor(c.value); }
  }

  lemma TextsParse(float: FloatReader, flags: SessionFlags, name: Option<string>, theme: Option<string>, rest: seq<string>)
    requires flags.name.None? && flags.theme.None?
    ensures SessionFlagsFrom(float, flags, Flag("--name", name) + (Flag("--theme", theme) + rest)) ==
              SessionFlagsFrom(float, flags.(name := name, theme := theme), rest)
  {
    FlagParses(float, flags, "--name", name, Flag("--theme", theme) + rest);
    FlagParses(float, flags.(name := name), "--theme", theme, rest);
  }

  lemma MetaParses(float: FloatReader, m: Meta, command: seq<string>)
    ensures SessionFlagsFrom(float, NO_FLAGS, MetaArgs(m) + command) ==
              if PriorityFits(m) then SessionFlagsFrom(float, Expected(m), command) else Err(BadPriority)
  {
    var priority := Flag("--priority", if m.priority.None? then None else Some(PrintInt(m.priority.value)));
    var color := Flag("--color", if m.color.None? then None else Some(WireName(m.color.value)));
    var name, theme := Flag("--name", Shown(m.name)), Flag("--theme", Shown(m.theme));
    Concat5Right(priority, color, name, theme, command);
    PriorityParses(float, m.priority, color + (name + (theme + command)));
    ColorParses(float, NO_FLAGS.(priority := m.priority), m.color, name + (theme + command));
    TextsParse(float, NO_FLAGS.(priority := m.priority, color := m.color), Shown(m.name), Shown(m.theme), command);
  }

  lemma Concat5Right(a: seq<string>, b: seq<string>, c: seq<string>, d: seq<string>, e: seq<string>)
    ensures (a + (b + (c + d))) + e == a + (b + (c + (d + e)))
  {
  }

  lemma {:induction false} RestIsShorter(float: FloatReader, flags: SessionFlags, tokens: seq<string>)
    ensures
      var r := SessionFlagsFrom(float, flags, tokens);
      r.Ok? ==> |r.value.1| <= |tokens| && (tokens != [] && IsSessionKey(KeyOf(tokens[0])) ==> |r.value.1| < |tokens|)
    decreases |tokens|
  {
    if tokens != [] && IsSessionKey(KeyOf(tokens[0])) && !(InlineValue(tokens[0]).None? && |tokens| == 1) {
      var inline := InlineValue(tokens[0]);
      var next := SetFlag(float, flags, KeyOf(tokens[0]), if inline.Some? then inline.value else tokens[1]);
      if next.Ok? {
        RestIsShorter(float, next.value, tokens[if inline.Some? then 1 else 2..]);
      }
    }
  }

  lemma MetaStart(m: Meta)
    ensures MetaArgs(m) != [] ==> IsSessionKey(MetaArgs(m)[0]) && MetaArgs(m)[0] != "--headless" && !IsPlaceKey(MetaArgs(m)[0])
  {
  }

  // ---------------------------------------------------------------- `run --headless`

  predicate NotSessionFlag(token: string) { !IsSessionKey(KeyOf(token)) }

  /** What follows the first headless mark decides, and the run is headless. */
  lemma HeadlessRunParses(float: FloatReader, tokens: seq<string>)
    ensures Parse(float, ["run", "--headless"] + tokens) ==
              match SessionFlagsFrom(float, NO_FLAGS, DropHeadless(tokens))
              case Err(e) => Err(e)
              case Ok((flags, argv)) => if argv == [] then Err(NoCommand) else Ok(Run(argv, true, flags))
  {
    hide SessionFlagsFrom;
    var rest := ["--headless"] + tokens;
    assert (["run", "--headless"] + tokens)[1..] == rest && rest[1..] == tokens;
    DropHeadlessShortens(tokens);
  }

  /** The client reads back the server's command, flags and headless mark exactly when the priority is in range
      and the command is not empty and does not start with a token that the client takes for a flag: a session
      flag in either form, or `--headless` when no flag stands before it. Anything else may be in the command,
      the name and the theme. */
  lemma RunRoundTrip(float: FloatReader, command: seq<string>, m: Meta)
    ensures Parse(float, RunArgs(command, m)) == Ok(Run(command, true, Expected(m))) <==>
            && PriorityFits(m) && command != [] && NotSessionFlag(command[0])
            && (MetaArgs(m) == [] ==> command[0] != "--headless")
  {
    hide MetaArgs, Parse, SessionFlagsFrom;
    var tokens := MetaArgs(m) + command;
    HeadlessRunParses(float, tokens);
    MetaParses(float, m, command);
    RestIsShorter(float, Expected(m), command);
    MetaStart(m);
    if tokens == [] || tokens[0] != "--headless" {
      SessionFlagsAtCommand(float, Expected(m), command);
    } else {
      assert MetaArgs(m) == [] && tokens == command;
      DropHeadlessShortens(command[1..]);
      RestIsShorter(float, NO_FLAGS, DropHeadless(command));
    }
  }

  lemma SessionFlagsAtCommand(float: FloatReader, flags: SessionFlags, command: seq<string>)
    ensures command == [] || NotSessionFlag(command[0]) ==> SessionFlagsFrom(float, flags, command) == Ok((flags, command))
  {
  }

  // ---------------------------------------------------------------- `__spawn`

  predicate SizesFit(i: SpawnInput) { 0 <= i.cols <= 0xFFFF && 0 <= i.rows <= 0xFFFF }

  function ExpectedPlace(i: SpawnInput): Place {
    Place(i.headless, Some(i.cwd), Some(i.cols), Some(i.rows))
  }

  lemma PlaceParses(i: SpawnInput, rest: seq<string>)
    ensures PlaceFrom(NO_PLACE, PlaceArgs(i) + rest) == if SizesFit(i) then PlaceFrom(ExpectedPlace(i), rest) else Err(BadSize)
  {
    var rows := ["--rows", PrintInt(i.rows)] + rest;
    var cols := ["--cols", PrintInt(i.cols)] + rows;
    var cwd := ["--cwd", i.cwd] + cols;
    if i.headless {
      assert PlaceArgs(i) + rest == ["--headless"] + cwd;
      assert (["--headless"] + cwd)[1..] == cwd;
    } else {
      assert PlaceArgs(i) + rest == cwd;
    }
    PlaceStep(NO_PLACE.(headless := i.headless), i, cwd, cols, rows, rest);
  }

  lemma PlaceStep(place: Place, i: SpawnInput, cwd: seq<string>, cols: seq<string>, rows: seq<string>, rest: seq<string>)
    requires place == NO_PLACE.(headless := i.headless)
    requires cwd == ["--cwd", i.cwd] + cols && cols == ["--cols", PrintInt(i.cols)] + rows
    requires rows == ["--rows", PrintInt(i.rows)] + rest
    ensures PlaceFrom(place, cwd) == if SizesFit(i) then PlaceFrom(ExpectedPlace(i), rest) else Err(BadSize)
  {
    assert rows[2..] == rest && cols[2..] == rows && cwd[2..] == cols;
    PrintedSize(i.cols);
    PrintedSize(i.rows);
    var p1 := place.(cwd := Some(i.cwd));
    assert PlaceFrom(place, cwd) == PlaceFrom(p1, cols);
    if 0 <= i.cols <= 0xFFFF {
      var p2 := p1.(cols := Some(i.cols));
      assert PlaceFrom(p1, cols) == PlaceFrom(p2, rows);
    }
  }

  lemma {:induction false} PlaceShortens(place: Place, tokens: seq<string>)
    ensures
      var r := PlaceFrom(place, tokens);
      r.Ok? ==> |r.value.1| <= |tokens| && (tokens != [] && IsPlaceKey(tokens[0]) ==> |r.value.1| < |tokens|)
    decreases |tokens|
  {
    if tokens != [] && IsPlaceKey(tokens[0]) {
      if tokens[0] == "--headless" {
        PlaceShortens(place.(headless := true), tokens[1..]);
      } else if |tokens| > 1 {
        if tokens[0] == "--cwd" {
          PlaceShortens(place.(cwd := Some(tokens[1])), tokens[2..]);
        } else if ParseU16(tokens[1]).Ok? {
          var n := ParseU16(tokens[1]).value;
          PlaceShortens(if tokens[0] == "--cols" then place.(cols := Some(n)) else place.(rows := Some(n)), tokens[2..]);
        }
      }
    }
  }

  /** The client reads back what the server asked to spawn exactly when the sizes are u16, the priority is in
      range, and the command is not empty and does not start with a token the client takes for a flag: a
      session flag in either form, or an option of `__spawn` when no flag stands before it. Anything else may
      be in the directory, the command, the name and the theme. */
  lemma SpawnRoundTrip(float: FloatReader, command: seq<string>, i: SpawnInput)
    ensures Parse(float, SpawnArgs(command, i)) == Ok(Spawn(command, ExpectedPlace(i), Expected(i.meta))) <==>
            && SizesFit(i) && PriorityFits(i.meta) && command != [] && NotSessionFlag(command[0])
            && (MetaArgs(i.meta) == [] ==> !IsPlaceKey(command[0]))
  {
    var m := i.meta;
    var rest := PlaceArgs(i) + (MetaArgs(m) + command);
    assert SpawnArgs(command, i)[1..] == rest;
    PlaceParses(i, MetaArgs(m) + command);
    MetaParses(float, m, command);
    RestIsShorter(float, Expected(m), command);
    MetaStart(m);
    if SizesFit(i) && MetaArgs(m) == [] {
      assert MetaArgs(m) + command == command;
      PlaceShortens(ExpectedPlace(i), command);
      var r := PlaceFrom(ExpectedPlace(i), command);
      if r.Ok? { RestIsShorter(float, NO_FLAGS, r.value.1); }
    }
  }

  // ---------------------------------------------------------------- the client's own builder

  /** build_run_args prints what the server's builder prints for a session without a theme. */
  method BuildRunArgsOfClient(command: seq<string>, priority: Option<int>, color: Option<ColorFlag>, name: Option<string>)
      returns (out: seq<string>)
    ensures out == RunArgs(command, Meta(priority, color, name, None))
  {
    out := ["run", "--headless"];
    if priority.Some? {
      out := out + ["--priority"];
      out := out + [PrintInt(priority.value)];
    }
    ghost var first := out;
    if color.Some? {
      out := out + ["--color"];
      match color.value {
        case NoColor => out := out + ["none"];
        case Auto => out := out + ["auto"];
        case Color(c) => out := out + [ColorName(c)];
      }
    }
    ghost var second := out;
    if name.Some? {
      if |name.value| > 0 {
        out := out + ["--name"];
        out := out + [name.value];
      }
    }
    out := out + command;
    var p := Flag("--priority", if priority.None? then None else Some(PrintInt(priority.value)));
    var c := Flag("--color", if color.None? then None else Some(WireName(color.value)));
    var n := Flag("--name", Shown(name));
    assert first == ["run", "--headless"] + p;
    assert second == first + c;
    assert out == (second + n) + command;
    FlagsInOrder(["run", "--headless"], p, c, n, command);
  }

  lemma FlagsInOrder(a: seq<string>, b: seq<string>, c: seq<string>, d: seq<string>, e: seq<string>)
    ensures (((a + b) + c) + d) + e == a + ((b + (c + (d + []))) + e)
  {
  }
}
