/** Loading and saving the configuration: the normalization a load applies, key by key, and the
    statement sequence that computes it. */
module ConfigLoad {
  import opened Base
  import opened Text
  import opened ConfigTree
  import opened ConfigFiles
  import JsonValue

  const VERSION: Text := [0x76, 0x65, 0x72, 0x73, 0x69, 0x6F, 0x6E]
  const SERVER: Text := [0x73, 0x65, 0x72, 0x76, 0x65, 0x72]
  const TERMINAL: Text := [0x74, 0x65, 0x72, 0x6D, 0x69, 0x6E, 0x61, 0x6C]
  const ATTENTION: Text := [0x61, 0x74, 0x74, 0x65, 0x6E, 0x74, 0x69, 0x6F, 0x6E]
  const REMOTE: Text := [0x72, 0x65, 0x6D, 0x6F, 0x74, 0x65]
  const SESSION: Text := [0x73, 0x65, 0x73, 0x73, 0x69, 0x6F, 0x6E]
  const FEATURE: Text := [0x66, 0x65, 0x61, 0x74, 0x75, 0x72, 0x65]
  const HOT_KEYS: Text := [0x68, 0x6F, 0x74, 0x4B, 0x65, 0x79, 0x73]
  const DETACH_PREFIX: Text := [0x64, 0x65, 0x74, 0x61, 0x63, 0x68, 0x50, 0x72, 0x65, 0x66, 0x69, 0x78]
  const IDLE_SECONDS: Text := [0x69, 0x64, 0x6C, 0x65, 0x53, 0x65, 0x63, 0x6F, 0x6E, 0x64, 0x73]
  const PRIORITY: Text := [0x70, 0x72, 0x69, 0x6F, 0x72, 0x69, 0x74, 0x79]
  const COLOR: Text := [0x63, 0x6F, 0x6C, 0x6F, 0x72]
  const FOCUS_TOP_SESSION: Text := [0x66, 0x6F, 0x63, 0x75, 0x73, 0x54, 0x6F, 0x70, 0x53, 0x65, 0x73, 0x73, 0x69, 0x6F, 0x6E]
  const VERSION_TOKEN: Text := [0x31]
  const DETACH_TOKEN: Text := [0x32, 0x38]
  const IDLE_TOKEN: Text := [0x31, 0x30]
  const AUTO: Text := [0x61, 0x75, 0x74, 0x6F]
  const ALT_J: Text := [0x41, 0x6C, 0x74, 0x2B, 0x4A]

  /** What the loader takes from elsewhere: the registry defaults, JavaScript's reading of number tokens,
      and parseColorMode (none when it throws). */
  datatype Rules = Rules(
    defaults: map<Text, Tree>,
    isByte: Text -> bool,             // an integer in [0, 255]
    isOne: Text -> bool,              // equal to CONFIG_VERSION
    parseColor: Text -> Option<Text>)

  /** The sections every load fills from the defaults. */
  predicate IsSection(k: Text) {
    k == SERVER || k == TERMINAL || k == ATTENTION || k == SESSION || k == FEATURE || k == HOT_KEYS
  }

  /** The registry gives each such section as an object, session.priority as a number and the supported version,
      holds nothing undefined, and names of colors parse to themselves. */
  ghost predicate RulesOk(r: Rules) {
    && (forall k | IsSection(k) :: k in r.defaults && r.defaults[k].Obj?)
    && PRIORITY in r.defaults[SESSION].fields && r.defaults[SESSION].fields[PRIORITY].Num?
    && r.isOne(VERSION_TOKEN) && r.isByte(DETACH_TOKEN)
    && r.parseColor(AUTO) == Some(AUTO)
    && Json(Obj(r.defaults)) && VERSION in r.defaults && r.defaults[VERSION].Num? && r.isOne(r.defaults[VERSION].token)
    && (forall s: Text :: r.parseColor(s).Some? ==> r.parseColor(r.parseColor(s).value) == r.parseColor(s))
  }

  // ---------------------------------------------------------------- normalization, field by field

  function FixDetachPrefix(r: Rules, t: Option<Tree>): Tree {
    if t.Some? && t.value.Num? && r.isByte(t.value.token) then t.value else Num(DETACH_TOKEN)
  }

  function FixIdleSeconds(t: Option<Tree>): Tree {
    if t.Some? && t.value.Num? then t.value else Num(IDLE_TOKEN)
  }

  function FixColor(r: Rules, t: Option<Tree>): Tree {
    if t.Some? && t.value.Str? && r.parseColor(t.value.s).Some? then Str(r.parseColor(t.value.s).value) else Str(AUTO)
  }

  function FixFocusTopSession(t: Option<Tree>): Tree {
    if t.Some? && t.value.Str? then t.value else Str(ALT_J)
  }

  /** The loaded value of field f of section k, given the parsed one. */
  function FieldNorm(r: Rules, k: Text, f: Text, parsed: Option<Tree>): Option<Tree> {
    var merged := if parsed.Some? then parsed else Lookup(Section(r.defaults, k), f);
    if k == SESSION then
      if f == PRIORITY then
        if parsed.Some? && parsed.value.Num? then parsed else Lookup(Section(r.defaults, k), f)
      else if f == COLOR then Some(FixColor(r, merged))
      else merged
    else if k == TERMINAL then if f == DETACH_PREFIX then Some(FixDetachPrefix(r, merged)) else merged
    else if k == ATTENTION then if f == IDLE_SECONDS then Some(FixIdleSeconds(merged)) else merged
    else if k == HOT_KEYS then if f == FOCUS_TOP_SESSION then Some(FixFocusTopSession(merged)) else merged
    else merged
  }

  const FIXED_FIELDS: set<Text> := {PRIORITY, DETACH_PREFIX, IDLE_SECONDS, COLOR, FOCUS_TOP_SESSION}

  function SectionNorm(r: Rules, k: Text, s: map<Text, Tree>): map<Text, Tree> {
    map f | f in s.Keys + Section(r.defaults, k).Keys + FIXED_FIELDS && FieldNorm(r, k, f, Lookup(s, f)).Some? ::
      FieldNorm(r, k, f, Lookup(s, f)).value
  }

  /** The loaded value of a top-level key, given the parsed one. */
  function KeyNorm(r: Rules, k: Text, parsed: Option<Tree>): Option<Tree> {
    if k == VERSION then Some(Num(VERSION_TOKEN))
    else if k == REMOTE then Some(if parsed.Some? && parsed.value.Obj? then parsed.value else Undefined)
    else if IsSection(k) then
      Some(Obj(SectionNorm(r, k, if parsed.Some? && parsed.value.Obj? then parsed.value.fields else map[])))
    else parsed
  }

  const FIXED_KEYS: set<Text> := {VERSION, SERVER, TERMINAL, ATTENTION, REMOTE, SESSION, FEATURE, HOT_KEYS}

  function Normalize(r: Rules, parsed: map<Text, Tree>): map<Text, Tree> {
    map k | k in parsed.Keys + FIXED_KEYS && KeyNorm(r, k, Lookup(parsed, k)).Some? :: KeyNorm(r, k, Lookup(parsed, k)).value
  }

  lemma NormalizeAt(r: Rules, parsed: map<Text, Tree>, k: Text)
    ensures Lookup(Normalize(r, parsed), k) == KeyNorm(r, k, Lookup(parsed, k))
  {
  }

  lemma SectionNormAt(r: Rules, k: Text, s: map<Text, Tree>, f: Text)
    ensures Lookup(SectionNorm(r, k, s), f) == FieldNorm(r, k, f, Lookup(s, f))
  {
  }

  // ---------------------------------------------------------------- what a load gives

  /** A section that every load fills in. */
  predicate IsFilledSection(k: Text) {
    || k == Ascii("server") || k == Ascii("terminal") || k == Ascii("attention") || k == Ascii("session")
    || k == Ascii("feature") || k == Ascii("hotKeys")
  }

  /** Field f of such a section: the file's value, else the registry's; five fields fall back where that value has
      the wrong type. The priority alone falls back from the file to the registry. */
  ghost predicate FieldLoaded(r: Rules, parsed: map<Text, Tree>, config: map<Text, Tree>, k: Text, f: Text) {
    var file, registry := Get(Obj(parsed), [k, f]), Get(Obj(r.defaults), [k, f]);
    var given := if file.Some? then file else registry;
    Get(Obj(config), [k, f]) ==
      if k == Ascii("session") && f == Ascii("priority") then if file.Some? && file.value.Num? then file else registry
      else if k == Ascii("session") && f == Ascii("color") then
        if given.Some? && given.value.Str? && r.parseColor(given.value.s).Some?
        then Some(Str(r.parseColor(given.value.s).value)) else Some(Str(Ascii("auto")))
      else if k == Ascii("terminal") && f == Ascii("detachPrefix") then
        if given.Some? && given.value.Num? && r.isByte(given.value.token) then given else Some(Num(Ascii("28")))
      else if k == Ascii("attention") && f == Ascii("idleSeconds") then
        if given.Some? && given.value.Num? then given else Some(Num(Ascii("10")))
      else if k == Ascii("hotKeys") && f == Ascii("focusTopSession") then
        if given.Some? && given.value.Str? then given else Some(Str(Ascii("Alt+J")))
      else given
  }

  /** A whole key: the supported version; `remote` if it is an object; the filled sections; the file's value. */
  ghost predicate KeyLoaded(r: Rules, parsed: map<Text, Tree>, config: map<Text, Tree>, k: Text) {
    if k == Ascii("version") then Lookup(config, k) == Some(Num(Ascii("1")))
    else if k == Ascii("remote") then Lookup(config, k) == Some(if k in parsed && parsed[k].Obj? then parsed[k] else Undefined)
    else if IsFilledSection(k) then
      k in config && config[k].Obj? && forall f: Text :: FieldLoaded(r, parsed, config, k, f)
    else Lookup(config, k) == Lookup(parsed, k)
  }

  ghost predicate Loaded(r: Rules, parsed: map<Text, Tree>, config: map<Text, Tree>) {
    forall k: Text :: KeyLoaded(r, parsed, config, k)
  }

  /** Two configurations that are loaded from the same file are the same: the description is complete. */
  lemma LoadedIsOne(r: Rules, parsed: map<Text, Tree>, a: map<Text, Tree>, b: map<Text, Tree>)
    requires Loaded(r, parsed, a) && Loaded(r, parsed, b)
    ensures a == b
  {
    forall k: Text ensures Lookup(a, k) == Lookup(b, k) {
      assert KeyLoaded(r, parsed, a, k) && KeyLoaded(r, parsed, b, k);
      if IsFilledSection(k) && k != Ascii("version") && k != Ascii("remote") {
        SameSection(r, parsed, a, b, k);
      }
    }
    SameMap(a, b);
  }

  lemma SameSection(r: Rules, parsed: map<Text, Tree>, a: map<Text, Tree>, b: map<Text, Tree>, k: Text)
    requires k in a && a[k].Obj? && k in b && b[k].Obj?
    requires forall f: Text :: FieldLoaded(r, parsed, a, k, f) && FieldLoaded(r, parsed, b, k, f)
    ensures a[k] == b[k]
  {
    forall f: Text ensures Lookup(a[k].fields, f) == Lookup(b[k].fields, f) {
      assert FieldLoaded(r, parsed, a, k, f) && FieldLoaded(r, parsed, b, k, f);
      GetOfTwo(a, k, f);
      GetOfTwo(b, k, f);
    }
    SameMap(a[k].fields, b[k].fields);
  }

  lemma GetOfTwo(m: map<Text, Tree>, k: Text, f: Text)
    ensures Get(Obj(m), [k, f]) == Lookup(Section(m, k), f)
  {
    assert [k, f][1..] == [f] && [f][1..] == [];
    if k in m { assert Get(m[k], [f]) == if m[k].Obj? && f in m[k].fields then Some(m[k].fields[f]) else None; }
  }

  lemma NamesOfKeys()
    ensures VERSION == Ascii("version") && SERVER == Ascii("server") && TERMINAL == Ascii("terminal")
    ensures ATTENTION == Ascii("attention") && REMOTE == Ascii("remote") && SESSION == Ascii("session")
    ensures FEATURE == Ascii("feature") && HOT_KEYS == Ascii("hotKeys")
  {
  }

  lemma NamesOfFields()
    ensures DETACH_PREFIX == Ascii("detachPrefix") && IDLE_SECONDS == Ascii("idleSeconds") && PRIORITY == Ascii("priority")
    ensures COLOR == Ascii("color") && FOCUS_TOP_SESSION == Ascii("focusTopSession")
  {
  }

  lemma NamesOfValues()
    ensures VERSION_TOKEN == Ascii("1") && DETACH_TOKEN == Ascii("28") && IDLE_TOKEN == Ascii("10")
    ensures AUTO == Ascii("auto") && ALT_J == Ascii("Alt+J")
  {
  }

  lemma FieldIsLoaded(r: Rules, parsed: map<Text, Tree>, k: Text, f: Text)
    requires IsSection(k)
    ensures FieldLoaded(r, parsed, Normalize(r, parsed), k, f)
  {
    hide Ascii, Normalize, SectionNorm, KeyNorm;
    NamesOfKeys();
    NamesOfFields();
    NamesOfValues();
    FixedKeysDiffer();
    NormalizeAt(r, parsed, k);
    SectionKey(r, parsed, k);
    SectionNormAt(r, k, Section(parsed, k), f);
    GetOfTwo(Normalize(r, parsed), k, f);
    GetOfTwo(parsed, k, f);
    GetOfTwo(r.defaults, k, f);
  }

  lemma NormalizeIsLoaded(r: Rules, parsed: map<Text, Tree>)
    ensures Loaded(r, parsed, Normalize(r, parsed))
  {
    hide Ascii, Normalize, SectionNorm, KeyNorm, FieldLoaded;
    forall k: Text ensures KeyLoaded(r, parsed, Normalize(r, parsed), k) {
      KeyIsLoaded(r, parsed, k);
    }
  }

  lemma KeyIsLoaded(r: Rules, parsed: map<Text, Tree>, k: Text)
    ensures KeyLoaded(r, parsed, Normalize(r, parsed), k)
  {
    hide Ascii, Normalize, SectionNorm, FieldLoaded;
    NamesOfKeys();
    NamesOfValues();
    FixedKeysDiffer();
    NormalizeAt(r, parsed, k);
    if IsSection(k) {
      SectionKey(r, parsed, k);
      forall f: Text ensures FieldLoaded(r, parsed, Normalize(r, parsed), k, f) { FieldIsLoaded(r, parsed, k, f); }
    }
  }

  // ---------------------------------------------------------------- the loader's statements

  /** The file names no version, or the supported one. */
  predicate VersionOk(r: Rules, parsed: map<Text, Tree>) {
    VERSION in parsed ==> parsed[VERSION].Num? && r.isOne(parsed[VERSION].token)
  }

  /** loadConfigInternal on a parsed file. */
  method LoadParsed(r: Rules, parsed: map<Text, Tree>) returns (res: Result<map<Text, Tree>, string>)
    requires RulesOk(r)
    ensures res.Ok? <==> VersionOk(r, parsed)
    ensures res.Err? <==> Ascii("version") in parsed && !(parsed[Ascii("version")].Num? && r.isOne(parsed[Ascii("version")].token))
    ensures res.Ok? ==> res.value == Normalize(r, parsed) && Loaded(r, parsed, res.value)
  {
    NamesOfKeys();
    hide Loaded, Ascii;
    if VERSION in parsed && !(parsed[VERSION].Num? && r.isOne(parsed[VERSION].token)) {
      return Err("Unsupported climon config format");
    }
    var session := LoadSession(r, Section(parsed, SESSION));
    var terminal := LoadTerminal(r, Section(parsed, TERMINAL));
    var attention := LoadAttention(r, Section(parsed, ATTENTION));
    var hotKeys := LoadHotKeys(r, Section(parsed, HOT_KEYS));
    KeysDiffer();
    PlainSection(r, SERVER, Section(parsed, SERVER));
    PlainSection(r, FEATURE, Section(parsed, FEATURE));
    var server := Section(r.defaults, SERVER) + Section(parsed, SERVER);
    var feature := Section(r.defaults, FEATURE) + Section(parsed, FEATURE);
    var remote := if REMOTE in parsed && parsed[REMOTE].Obj? then parsed[REMOTE] else Undefined;
    var config := parsed + map[
      VERSION := Num(VERSION_TOKEN), SERVER := Obj(server), TERMINAL := Obj(terminal), ATTENTION := Obj(attention),
      REMOTE := remote, SESSION := Obj(session), FEATURE := Obj(feature), HOT_KEYS := Obj(hotKeys)];
    LiteralIsNormalize(r, parsed, server, terminal, attention, remote, session, feature, hotKeys);
    NormalizeIsLoaded(r, parsed);
    res := Ok(config);
  }

  /** An object literal that spreads m and then sets eight keys. */
  lemma SpreadThenSet(m: map<Text, Tree>, a: Text, b: Text, c: Text, d: Text, e: Text, f: Text, g: Text, h: Text,
                      va: Tree, vb: Tree, vc: Tree, vd: Tree, ve: Tree, vf: Tree, vg: Tree, vh: Tree) returns (s: map<Text, Tree>)
    requires AllDiffer(a, b, c, d, e, f, g, h)
    ensures s == m + map[a := va, b := vb, c := vc, d := vd, e := ve, f := vf, g := vg, h := vh]
    ensures
      && Lookup(s, a) == Some(va) && Lookup(s, b) == Some(vb) && Lookup(s, c) == Some(vc) && Lookup(s, d) == Some(vd)
      && Lookup(s, e) == Some(ve) && Lookup(s, f) == Some(vf) && Lookup(s, g) == Some(vg) && Lookup(s, h) == Some(vh)
      && forall k :: k !in {a, b, c, d, e, f, g, h} ==> Lookup(s, k) == Lookup(m, k)
  {
    hide Lookup;
    var n := map[a := va, b := vb, c := vc, d := vd, e := ve, f := vf, g := vg, h := vh];
    s := m + n;
    SpreadLookup(m, n);
  }

  lemma SpreadLookup(m: map<Text, Tree>, n: map<Text, Tree>)
    ensures forall k: Text :: Lookup(m + n, k) == if k in n then Some(n[k]) else Lookup(m, k)
  {
  }

  predicate AllDiffer(a: Text, b: Text, c: Text, d: Text, e: Text, f: Text, g: Text, h: Text) {
    && a !in {b, c, d, e, f, g, h} && b !in {c, d, e, f, g, h} && c !in {d, e, f, g, h} && d !in {e, f, g, h}
    && e !in {f, g, h} && f !in {g, h} && g != h
  }

  /** Keys of different length or first letter differ. */
  function Tag(k: Text): (int, int) { (|k|, if k == [] then 0 else k[0]) }

  lemma FixedKeysDiffer()
    ensures AllDiffer(VERSION, SERVER, TERMINAL, ATTENTION, REMOTE, SESSION, FEATURE, HOT_KEYS)
  {
    assert Tag(VERSION) == (7, 0x76) && Tag(SERVER) == (6, 0x73) && Tag(TERMINAL) == (8, 0x74) && Tag(ATTENTION) == (9, 0x61);
    assert Tag(REMOTE) == (6, 0x72) && Tag(SESSION) == (7, 0x73) && Tag(FEATURE) == (7, 0x66) && Tag(HOT_KEYS) == (7, 0x68);
  }

  predicate SectionAt(r: Rules, parsed: map<Text, Tree>, config: map<Text, Tree>, k: Text) {
    Lookup(config, k) == Some(Obj(SectionNorm(r, k, Section(parsed, k))))
  }

  lemma ConfigComputed(r: Rules, parsed: map<Text, Tree>, config: map<Text, Tree>)
    requires Lookup(config, VERSION) == Some(Num(VERSION_TOKEN))
    requires Lookup(config, REMOTE) == Some(if REMOTE in parsed && parsed[REMOTE].Obj? then parsed[REMOTE] else Undefined)
    requires SectionAt(r, parsed, config, SERVER) && SectionAt(r, parsed, config, TERMINAL)
    requires SectionAt(r, parsed, config, ATTENTION) && SectionAt(r, parsed, config, SESSION)
    requires SectionAt(r, parsed, config, FEATURE) && SectionAt(r, parsed, config, HOT_KEYS)
    requires forall k :: k !in {VERSION, SERVER, TERMINAL, ATTENTION, REMOTE, SESSION, FEATURE, HOT_KEYS} ==> Lookup(config, k) == Lookup(parsed, k)
    ensures config == Normalize(r, parsed)
  {
    hide SectionNorm;
    forall k ensures Lookup(config, k) == Lookup(Normalize(r, parsed), k) {
      NormalizeAt(r, parsed, k);
      if IsSection(k) {
        assert SectionAt(r, parsed, config, k);
        SectionKey(r, parsed, k);
      } else if k == VERSION || k == REMOTE {
      } else {
        assert Lookup(config, k) == Lookup(parsed, k);
      }
    }
    SameMap(config, Normalize(r, parsed));
  }

  lemma SectionKey(r: Rules, parsed: map<Text, Tree>, k: Text)
    requires IsSection(k)
    ensures KeyNorm(r, k, Lookup(parsed, k)) == Some(Obj(SectionNorm(r, k, Section(parsed, k))))
  {
    FixedKeysDiffer();
  }

  lemma LiteralIsNormalize(r: Rules, parsed: map<Text, Tree>, server: map<Text, Tree>, terminal: map<Text, Tree>,
                           attention: map<Text, Tree>, remote: Tree, session: map<Text, Tree>, feature: map<Text, Tree>,
                           hotKeys: map<Text, Tree>)
    requires server == SectionNorm(r, SERVER, Section(parsed, SERVER))
    requires terminal == SectionNorm(r, TERMINAL, Section(parsed, TERMINAL))
    requires attention == SectionNorm(r, ATTENTION, Section(parsed, ATTENTION))
    requires session == SectionNorm(r, SESSION, Section(parsed, SESSION))
    requires feature == SectionNorm(r, FEATURE, Section(parsed, FEATURE))
    requires hotKeys == SectionNorm(r, HOT_KEYS, Section(parsed, HOT_KEYS))
    requires remote == if REMOTE in parsed && parsed[REMOTE].Obj? then parsed[REMOTE] else Undefined
    ensures parsed + map[
              VERSION := Num(VERSION_TOKEN), SERVER := Obj(server), TERMINAL := Obj(terminal), ATTENTION := Obj(attention),
              REMOTE := remote, SESSION := Obj(session), FEATURE := Obj(feature), HOT_KEYS := Obj(hotKeys)] == Normalize(r, parsed)
  {
    FixedKeysDiffer();
    ghost var config := SpreadThenSet(
      parsed, VERSION, SERVER, TERMINAL, ATTENTION, REMOTE, SESSION, FEATURE, HOT_KEYS,
      Num(VERSION_TOKEN), Obj(server), Obj(terminal), Obj(attention), remote, Obj(session), Obj(feature), Obj(hotKeys));
    ConfigComputed(r, parsed, config);
  }

  method LoadSession(r: Rules, parsed: map<Text, Tree>) returns (session: map<Text, Tree>)
    requires RulesOk(r)
    ensures session == SectionNorm(r, SESSION, parsed)
  {
    var priority := if PRIORITY in parsed && parsed[PRIORITY].Num?
                    then parsed[PRIORITY] else Section(r.defaults, SESSION)[PRIORITY];
    session := (Section(r.defaults, SESSION) + parsed)[PRIORITY := priority];
    var color := if COLOR in session && session[COLOR].Str? then r.parseColor(session[COLOR].s) else Some(AUTO);
    session := session[COLOR := Str(if color.Some? then color.value else AUTO)];
    KeysDiffer();
    SessionSection(r, parsed, priority);
  }

  method LoadTerminal(r: Rules, parsed: map<Text, Tree>) returns (terminal: map<Text, Tree>)
    ensures terminal == SectionNorm(r, TERMINAL, parsed)
  {
    KeysDiffer();
    terminal := Section(r.defaults, TERMINAL) + parsed;
    var fixed := if DETACH_PREFIX in terminal && terminal[DETACH_PREFIX].Num? && r.isByte(terminal[DETACH_PREFIX].token)
                 then terminal[DETACH_PREFIX] else Num(DETACH_TOKEN);
    terminal := terminal[DETACH_PREFIX := fixed];
    FixedSection(r, TERMINAL, parsed, DETACH_PREFIX, fixed);
  }

  method LoadAttention(r: Rules, parsed: map<Text, Tree>) returns (attention: map<Text, Tree>)
    ensures attention == SectionNorm(r, ATTENTION, parsed)
  {
    KeysDiffer();
    attention := Section(r.defaults, ATTENTION) + parsed;
    FixedSection(r, ATTENTION, parsed, IDLE_SECONDS, FixIdleSeconds(Lookup(attention, IDLE_SECONDS)));
    if !(IDLE_SECONDS in attention && attention[IDLE_SECONDS].Num?) {
      attention := attention[IDLE_SECONDS := Num(IDLE_TOKEN)];
    }
  }

  method LoadHotKeys(r: Rules, parsed: map<Text, Tree>) returns (hotKeys: map<Text, Tree>)
    ensures hotKeys == SectionNorm(r, HOT_KEYS, parsed)
  {
    KeysDiffer();
    hotKeys := Section(r.defaults, HOT_KEYS) + parsed;
    FixedSection(r, HOT_KEYS, parsed, FOCUS_TOP_SESSION, FixFocusTopSession(Lookup(hotKeys, FOCUS_TOP_SESSION)));
    if !(FOCUS_TOP_SESSION in hotKeys && hotKeys[FOCUS_TOP_SESSION].Str?) {
      hotKeys := hotKeys[FOCUS_TOP_SESSION := Str(ALT_J)];
    }
  }

  /** The constants differ from each other. */
  lemma KeysDiffer()
    ensures |{VERSION, REMOTE, SERVER, TERMINAL, ATTENTION, SESSION, FEATURE, HOT_KEYS}| == 8
    ensures SESSION != TERMINAL && SESSION != ATTENTION && SESSION != HOT_KEYS && SESSION != SERVER && SESSION != FEATURE
    ensures TERMINAL != ATTENTION && TERMINAL != HOT_KEYS && TERMINAL != SERVER && TERMINAL != FEATURE
    ensures ATTENTION != HOT_KEYS && ATTENTION != SERVER && ATTENTION != FEATURE
    ensures HOT_KEYS != SERVER && HOT_KEYS != FEATURE && SERVER != FEATURE && PRIORITY != COLOR
  {
    assert |VERSION| == 7 && |REMOTE| == 6 && |SERVER| == 6 && |TERMINAL| == 8 && |ATTENTION| == 9;
    assert |SESSION| == 7 && |FEATURE| == 7 && |HOT_KEYS| == 7;
    assert VERSION[0] == 0x76 && SESSION[0] == 0x73 && FEATURE[0] == 0x66 && HOT_KEYS[0] == 0x68;
    assert REMOTE[0] == 0x72 && SERVER[0] == 0x73;
  }

  /** A section without fixed fields is the defaults overlaid by the parsed section. */
  lemma PlainSection(r: Rules, k: Text, s: map<Text, Tree>)
    requires k != SESSION && k != TERMINAL && k != ATTENTION && k != HOT_KEYS
    ensures SectionNorm(r, k, s) == Section(r.defaults, k) + s
  {
    forall f ensures Lookup(SectionNorm(r, k, s), f) == Lookup(Section(r.defaults, k) + s, f) {
      SectionNormAt(r, k, s, f);
    }
    SameMap(SectionNorm(r, k, s), Section(r.defaults, k) + s);
  }

  /** A section with one fixed field: the overlay, with that field fixed. */
  lemma FixedSection(r: Rules, k: Text, s: map<Text, Tree>, g: Text, fixed: Tree)
    requires (k == TERMINAL && g == DETACH_PREFIX) || (k == ATTENTION && g == IDLE_SECONDS) || (k == HOT_KEYS && g == FOCUS_TOP_SESSION)
    requires FieldNorm(r, k, g, Lookup(s, g)) == Some(fixed)
    ensures SectionNorm(r, k, s) == (Section(r.defaults, k) + s)[g := fixed]
  {
    KeysDiffer();
    var t := (Section(r.defaults, k) + s)[g := fixed];
    forall f ensures Lookup(SectionNorm(r, k, s), f) == Lookup(t, f) {
      SectionNormAt(r, k, s, f);
    }
    SameMap(SectionNorm(r, k, s), t);
  }

  lemma SessionSection(r: Rules, s: map<Text, Tree>, priority: Tree)
    requires FieldNorm(r, SESSION, PRIORITY, Lookup(s, PRIORITY)) == Some(priority)
    ensures
      var t := (Section(r.defaults, SESSION) + s)[PRIORITY := priority];
      SectionNorm(r, SESSION, s) == t[COLOR := FixColor(r, Lookup(t, COLOR))]
  {
    KeysDiffer();
    var t := (Section(r.defaults, SESSION) + s)[PRIORITY := priority];
    var u := t[COLOR := FixColor(r, Lookup(t, COLOR))];
    forall f ensures Lookup(SectionNorm(r, SESSION, s), f) == Lookup(u, f) {
      SectionNormAt(r, SESSION, s, f);
    }
    SameMap(SectionNorm(r, SESSION, s), u);
  }

  // ---------------------------------------------------------------- loading again changes nothing

  lemma FieldNormIdempotent(r: Rules, k: Text, f: Text, x: Option<Tree>)
    requires RulesOk(r)
    ensures FieldNorm(r, k, f, FieldNorm(r, k, f, x)) == FieldNorm(r, k, f, x)
  {
  }

  lemma SectionNormIdempotent(r: Rules, k: Text, s: map<Text, Tree>)
    requires RulesOk(r)
    ensures SectionNorm(r, k, SectionNorm(r, k, s)) == SectionNorm(r, k, s)
  {
    var once := SectionNorm(r, k, s);
    forall f ensures Lookup(SectionNorm(r, k, once), f) == Lookup(once, f) {
      SectionNormAt(r, k, s, f);
      SectionNormAt(r, k, once, f);
      FieldNormIdempotent(r, k, f, Lookup(s, f));
    }
    SameMap(SectionNorm(r, k, once), once);
  }

  lemma SectionNormJson(r: Rules, k: Text, s: map<Text, Tree>)
    requires RulesOk(r) && Json(Obj(s))
    ensures Json(Obj(SectionNorm(r, k, s)))
  {
    forall f <- SectionNorm(r, k, s) ensures Json(SectionNorm(r, k, s)[f]) {
      SectionNormAt(r, k, s, f);
      FieldNormJson(r, k, f, Lookup(s, f));
    }
  }

  lemma FieldNormJson(r: Rules, k: Text, f: Text, x: Option<Tree>)
    requires RulesOk(r) && (x.Some? ==> Json(x.value))
    ensures FieldNorm(r, k, f, x).Some? ==> Json(FieldNorm(r, k, f, x).value)
  {
    DefaultsJson(r, k, f);
    FixesJson(r, if x.Some? then x else Lookup(Section(r.defaults, k), f));
  }

  lemma DefaultsJson(r: Rules, k: Text, f: Text)
    requires Json(Obj(r.defaults))
    ensures Lookup(Section(r.defaults, k), f).Some? ==> Json(Lookup(Section(r.defaults, k), f).value)
  {
    if k in r.defaults {
      assert Json(r.defaults[k]);
    }
  }

  lemma FixesJson(r: Rules, x: Option<Tree>)
    requires x.Some? ==> Json(x.value)
    ensures Json(FixDetachPrefix(r, x)) && Json(FixIdleSeconds(x)) && Json(FixColor(r, x)) && Json(FixFocusTopSession(x))
  {
    TokensAreNumbers();
  }

  lemma TokensAreNumbers()
    ensures JsonValue.IsNumber(VERSION_TOKEN) && JsonValue.IsNumber(DETACH_TOKEN) && JsonValue.IsNumber(IDLE_TOKEN)
  {
    assert JsonValue.DropDigits(VERSION_TOKEN[1..]) == [];
    assert JsonValue.DropDigits(DETACH_TOKEN[2..]) == [] && DETACH_TOKEN[1..][1..] == DETACH_TOKEN[2..];
    assert JsonValue.DropDigits(IDLE_TOKEN[2..]) == [] && IDLE_TOKEN[1..][1..] == IDLE_TOKEN[2..];
  }

  lemma KeyNormIdempotent(r: Rules, k: Text, x: Option<Tree>)
    requires RulesOk(r) && (x.Some? ==> Json(x.value))
    ensures KeyNorm(r, k, StoredOption(KeyNorm(r, k, x))) == KeyNorm(r, k, x)
  {
    if k != VERSION && k != REMOTE && IsSection(k) {
      var s := if x.Some? && x.value.Obj? then x.value.fields else map[];
      SectionNormJson(r, k, s);
      StoredOfJson(Obj(SectionNorm(r, k, s)));
      SectionNormIdempotent(r, k, s);
    } else if x.Some? {
      StoredOfJson(x.value);
    }
  }

  lemma StoredAt(m: Config, k: Text)
    ensures Lookup(StoredConfig(m), k) == StoredOption(Lookup(m, k))
  {
  }

  /** Writing a loaded configuration and loading it again gives the same configuration. */
  lemma NormalizeIdempotent(r: Rules, parsed: map<Text, Tree>)
    requires RulesOk(r) && Json(Obj(parsed))
    ensures Normalize(r, StoredConfig(Normalize(r, parsed))) == Normalize(r, parsed)
  {
    var once := Normalize(r, parsed);
    var again := Normalize(r, StoredConfig(once));
    forall k ensures Lookup(again, k) == Lookup(once, k) {
      NormalizeAt(r, parsed, k);
      StoredAt(once, k);
      NormalizeAt(r, StoredConfig(once), k);
      KeyNormIdempotent(r, k, Lookup(parsed, k));
    }
    SameMap(again, once);
  }

  /** A registry can meet these demands. */
  lemma RulesExist() returns (r: Rules)
    ensures RulesOk(r)
  {
    FixedKeysDiffer();
    TokensAreNumbers();
    var session: Tree := Obj(map[PRIORITY := Num(VERSION_TOKEN)]);
    var empty: Tree := Obj(map[]);
    var defaults := SpreadThenSet(
      map[], VERSION, SERVER, TERMINAL, ATTENTION, REMOTE, SESSION, FEATURE, HOT_KEYS,
      Num(VERSION_TOKEN), empty, empty, empty, empty, session, empty, empty);
    r := Rules(defaults, t => t == DETACH_TOKEN, t => t == VERSION_TOKEN, s => if s == AUTO then Some(AUTO) else None);
    forall k <- defaults ensures Json(defaults[k]) {
      assert Lookup(defaults, k) == Some(defaults[k]);
    }
  }
}
