/** Saving as a three-way merge: many loaded configurations, edited and saved in any order, over one home
    directory. Each load and each save is one step. */
module ConfigStore {
  import opened Base
  import opened Text
  import opened ConfigTree
  import opened ConfigFiles
  import opened ConfigText
  import opened ConfigMerge
  import opened ConfigLoad
  import JV = JsonValue
  import JR = JsoncRender
  import RT = JsoncRoundTrip
  import JT = JsoncTheorems

  // ---------------------------------------------------------------- the home directory

  /** The texts of config.jsonc, config.json and config.json.bak. */
  datatype Home = Home(canonical: Option<Text>, legacy: Option<Text>, backup: Option<Text>)

  datatype LoadError = Malformed(parse: RT.ParseError) | UnsupportedVersion

  function Existing(h: Home): Option<Text> {
    if h.canonical.Some? then h.canonical else h.legacy
  }

  function Check(r: Rules, parsed: Config): Result<Config, LoadError> {
    if VersionOk(r, parsed) then Ok(Normalize(r, parsed)) else Err(UnsupportedVersion)
  }

  /** What loading the home directory gives: the view every process has of it. */
  function View(r: Rules, h: Home): Result<Config, LoadError> {
    match Existing(h)
    case None => Ok(r.defaults)
    case Some(raw) =>
      match ReadText(raw)
      case Err(e) => Err(Malformed(e))
      case Ok(parsed) => Check(r, parsed)
  }

  /** A whole configuration was written; a legacy file that it supersedes became the backup. */
  ghost predicate Wrote(reg: JR.Registry, m: Config, h: Home, h': Home) {
    && h'.canonical.Some? && Written(reg, m, h'.canonical.value)
    && if h.canonical.None? && h.legacy.Some? then h'.legacy == None && h'.backup == h.legacy
       else h'.legacy == h.legacy && h'.backup == h.backup
  }

  // ---------------------------------------------------------------- steps

  /** The home, the configuration objects that callers hold, and the snapshot kept for each loaded one. */
  datatype World = World(home: Home, values: map<nat, Config>, golden: map<nat, Config>)

  ghost predicate LoadStep(r: Rules, reg: JR.Registry, id: nat, w: World, w': World) {
    match View(r, w.home)
    case Err(_) => w' == w
    case Ok(config) =>
      && w'.values == w.values[id := config]
      && w'.golden == w.golden[id := config]
      && if Existing(w.home).None? then Wrote(reg, config, w.home, w'.home) else w'.home == w.home
  }

  ghost predicate SaveStep(r: Rules, reg: JR.Registry, id: nat, w: World, w': World) {
    && id in w.values
    && if id !in w.golden then
         Wrote(reg, w.values[id], w.home, w'.home) && w'.values == w.values && w'.golden == w.golden
       else
         match View(r, w.home)
         case Err(_) => w' == w
         case Ok(latest) =>
           && Wrote(reg, Merged(w, id, latest), w.home, w'.home)
           && w'.values == w.values
           && w'.golden == w.golden[id := w.values[id]]
  }

  /** The latest configuration with the owner's own changes applied. */
  function Merged(w: World, id: nat, latest: Config): Config
    requires id in w.values && id in w.golden
  {
    Apply(latest, DiffFields(w.golden[id], w.values[id]))
  }

  datatype Event =
    | LoadConfig(id: nat)
    | SaveConfig(id: nat)
    | Edit(id: nat, value: Config)     // the owner changes its object
    | Create(id: nat, value: Config)   // an object that no load returned

  ghost predicate Step(r: Rules, reg: JR.Registry, e: Event, w: World, w': World) {
    match e
    case LoadConfig(id) => LoadStep(r, reg, id, w, w')
    case SaveConfig(id) => SaveStep(r, reg, id, w, w')
    case Edit(id, value) => id in w.values && w' == w.(values := w.values[id := value])
    case Create(id, value) => w' == w.(values := w.values[id := value], golden := w.golden - {id})
  }

  // ---------------------------------------------------------------- the operations

  /** Any order of the keys of a tree. */
  method Ordered(t: Tree) returns (v: JV.Value)
    ensures JV.ToTree(v) == t && JV.WellFormed(v)
    decreases t
  {
    match t {
      case Undefined => v := JV.Undefined;
      case Null => v := JV.Null;
      case Bool(b) => v := JV.Bool(b);
      case Num(token) => v := JV.Num(token);
      case Str(s) => v := JV.Str(s);
      case Arr(items) =>
        var out: seq<JV.Value> := [];
        while |out| < |items|
          invariant |out| <= |items|
          invariant forall i :: 0 <= i < |out| ==> JV.ToTree(out[i]) == items[i] && JV.WellFormed(out[i])
        {
          var item := Ordered(items[|out|]);
          out := out + [item];
        }
        v := JV.Arr(out);
        assert JV.ToTree(v).items == items;
      case Obj(m) =>
        var fields: seq<JV.Field> := [];
        var rest := m.Keys;
        while rest != {}
          invariant rest <= m.Keys
          invariant forall f <- fields :: f.key !in rest
          invariant JV.WellFormed(JV.Obj(fields))
          invariant JV.ToMap(fields, |fields|) == m - rest
          decreases rest
        {
          var key :| key in rest;
          var value := Ordered(m[key]);
          AddField(fields, key, value);
          fields := fields + [JV.Field(key, value)];
          rest := rest - {key};
        }
        v := JV.Obj(fields);
        assert m - {} == m;
    }
  }

  lemma {:induction false} ToMapPrefix(fields: seq<JV.Field>, more: seq<JV.Field>, n: nat)
    requires n <= |fields|
    ensures JV.ToMap(fields + more, n) == JV.ToMap(fields, n)
    decreases n
  {
    if n > 0 {
      ToMapPrefix(fields, more, n - 1);
    }
  }

  lemma AddField(fields: seq<JV.Field>, key: Text, value: JV.Value)
    requires JV.WellFormed(JV.Obj(fields)) && JV.WellFormed(value) && forall f <- fields :: f.key != key
    ensures JV.WellFormed(JV.Obj(fields + [JV.Field(key, value)]))
    ensures
      var more := fields + [JV.Field(key, value)];
      JV.ToMap(more, |more|) == JV.ToMap(fields, |fields|)[key := JV.ToTree(value)]
  {
    ToMapPrefix(fields, [JV.Field(key, value)], |fields|);
  }

  /** writeCompleteConfig and writeSparseConfig */
  method WriteHome(reg: JR.Registry, config: Config, h: Home) returns (h': Home)
    ensures Wrote(reg, config, h, h')
  {
    var v := Ordered(Obj(config));
    var hasLegacy, hasCanonical := h.legacy.Some?, h.canonical.Some?;
    var rendered := JR.RenderConfig(reg, v.fields, true);
    h' := h.(canonical := Some(rendered));
    if hasLegacy && !hasCanonical {
      h' := h'.(legacy := None, backup := h.legacy);
    }
  }

  /** The delta applied to the latest configuration. */
  method MergeDelta(golden: Config, value: Config, delta: Option<Delta>, latest: Config) returns (toWrite: Config)
    requires delta == Diff(Obj(golden), Obj(value))
    ensures toWrite == Apply(latest, DiffFields(golden, value))
  {
    DiffOfObjects(golden, value);
    ApplyNothing(latest);
    ApplyDiff(golden, value);
    if delta.Some? {
      var merged := ApplyConfigDelta(latest, delta.value);
      toWrite := merged.value;
    } else {
      toWrite := latest;
    }
  }

  class Store {
    const r: Rules
    const reg: JR.Registry
    var home: Home
    var values: map<nat, Config>
    var golden: map<nat, Config>

    ghost function State(): World
      reads this
    {
      World(home, values, golden)
    }

    constructor (r: Rules, reg: JR.Registry, home: Home)
      ensures this.r == r && this.reg == reg && State() == World(home, map[], map[])
    {
      this.r, this.reg, this.home := r, reg, home;
      values, golden := map[], map[];
    }

    /** loadConfigInternal */
    method Read() returns (res: Result<Config, LoadError>)
      requires RulesOk(r)
      ensures res == View(r, home)
    {
      var raw := Existing(home);
      if raw.None? { return Ok(r.defaults); }
      var parsed := ReadText(raw.value);
      if parsed.Err? { return Err(Malformed(parsed.error)); }
      var loaded := LoadParsed(r, parsed.value);
      res := if loaded.Ok? then Ok(loaded.value) else Err(UnsupportedVersion);
    }

    method LoadConfig(id: nat) returns (res: Result<Config, LoadError>)
      requires RulesOk(r)
      modifies this
      ensures res == View(r, old(home))
      ensures LoadStep(r, reg, id, old(State()), State())
    {
      var existed := Existing(home).Some?;
      res := Read();
      if res.Err? { return; }
      if !existed { home := WriteHome(reg, res.value, home); }
      values := values[id := res.value];
      golden := golden[id := res.value];
    }

    method SaveConfig(id: nat) returns (res: Result<(), LoadError>)
      requires RulesOk(r) && id in values
      modifies this
      ensures SaveStep(r, reg, id, old(State()), State())
      ensures res.Err? <==> id in old(golden) && View(r, old(home)).Err?
    {
      var callerState := values[id];
      var toWrite := callerState;
      if id in golden {
        var delta := DiffConfig(Obj(golden[id]), Obj(callerState));
        var latest := Read();
        if latest.Err? { return Err(latest.error); }
        toWrite := MergeDelta(golden[id], callerState, delta, latest.value);
      }
      home := WriteHome(reg, toWrite, home);
      if id in golden { golden := golden[id := callerState]; }
      res := Ok(());
    }
  }

  lemma ApplyNothing(latest: Config)
    ensures Apply(latest, map[]) == latest
  {
  }

  // ---------------------------------------------------------------- one path through a load

  /** The fields whose value every load fixes. */
  predicate IsFixed(k: Text, f: Text) {
    (k == SESSION && (f == PRIORITY || f == COLOR)) || (k == TERMINAL && f == DETACH_PREFIX)
    || (k == ATTENTION && f == IDLE_SECONDS) || (k == HOT_KEYS && f == FOCUS_TOP_SESSION)
  }

  lemma FieldNormCases(r: Rules, k: Text, f: Text, x: Option<Tree>)
    requires RulesOk(r)
    ensures IsFixed(k, f) ==> FieldNorm(r, k, f, x).Some? && !FieldNorm(r, k, f, x).value.Obj?
    ensures !IsFixed(k, f) ==> FieldNorm(r, k, f, x) == if x.Some? then x else Lookup(Section(r.defaults, k), f)
  {
    KeysDiffer();
  }

  lemma GetKey(r: Rules, m: Config, k: Text)
    ensures Get(Obj(Normalize(r, m)), [k]) == KeyNorm(r, k, Get(Obj(m), [k]))
  {
    NormalizeAt(r, m, k);
  }

  lemma SectionLoaded(r: Rules, m: Config, k: Text)
    requires IsSection(k)
    ensures Lookup(Normalize(r, m), k) == Some(Obj(SectionNorm(r, k, Section(m, k))))
  {
    NormalizeAt(r, m, k);
    SectionKey(r, m, k);
  }

  lemma GetHead(m: Config, p: Path)
    requires p != []
    ensures Get(Obj(m), p) == match Lookup(m, p[0]) case None => None case Some(t) => Get(t, p[1..])
  {
  }

  lemma GetTwo(m: Config, p: Path)
    requires |p| >= 2
    ensures Get(Obj(m), p[..2]) == Lookup(Section(m, p[0]), p[1])
  {
    GetHead(m, p[..2]);
    GetHead(Section(m, p[0]), p[..2][1..]);
  }

  lemma LookupField(r: Rules, m: Config, k: Text, f: Text)
    requires IsSection(k)
    ensures
      var section := Section(Normalize(r, m), k);
      Lookup(Normalize(r, m), k) == Some(Obj(section)) && Lookup(section, f) == FieldNorm(r, k, f, Lookup(Section(m, k), f))
  {
    SectionLoaded(r, m, k);
    SectionNormAt(r, k, Section(m, k), f);
  }

  /** Below a section: the field is fixed or filled in, then the path goes on inside it. */
  lemma GetField(r: Rules, m: Config, p: Path)
    requires |p| >= 2 && IsSection(p[0])
    ensures
      var x := FieldNorm(r, p[0], p[1], Get(Obj(m), p[..2]));
      Get(Obj(Normalize(r, m)), p) == if x.None? then None else Get(x.value, p[2..])
  {
    LookupField(r, m, p[0], p[1]);
    var section := Section(Normalize(r, m), p[0]);
    GetTwo(m, p);
    GetHead(Normalize(r, m), p);
    GetHead(section, p[1..]);
    assert p[1..][1..] == p[2..];
  }

  predicate IsObject(t: Option<Tree>) { t.Some? && t.value.Obj? }

  lemma LookupOther(r: Rules, m: Config, k: Text)
    requires !IsSection(k)
    ensures k == VERSION ==> !IsObject(Lookup(Normalize(r, m), k))
    ensures k != VERSION ==>
              (IsObject(Lookup(Normalize(r, m), k)) || IsObject(Lookup(m, k))) ==> Lookup(Normalize(r, m), k) == Lookup(m, k)
  {
    NormalizeAt(r, m, k);
  }

  lemma GetBelow(m: Config, n: Config, p: Path)
    requires |p| >= 2
    ensures !IsObject(Lookup(m, p[0])) ==> Get(Obj(m), p) == None
    ensures (IsObject(Lookup(m, p[0])) || IsObject(Lookup(n, p[0])) ==> Lookup(m, p[0]) == Lookup(n, p[0])) ==>
              Get(Obj(m), p) == Get(Obj(n), p)
  {
    GetHead(m, p);
    GetHead(n, p);
  }

  /** Below any other key a load changes nothing. */
  lemma GetOther(r: Rules, m: Config, p: Path)
    requires |p| >= 2 && !IsSection(p[0])
    ensures p[0] == VERSION ==> Get(Obj(Normalize(r, m)), p) == None
    ensures p[0] != VERSION ==> Get(Obj(Normalize(r, m)), p) == Get(Obj(m), p)
  {
    LookupOther(r, m, p[0]);
    GetBelow(Normalize(r, m), m, p);
  }

  // ---------------------------------------------------------------- what a load gives is settled

  /** What a load gives of a written file. */
  lemma ViewOfWritten(r: Rules, reg: JR.Registry, m: Config, h: Home, h': Home)
    requires RT.OneLine(reg) && Wrote(reg, m, h, h')
    ensures View(r, h') == Check(r, StoredConfig(m))
  {
    ReadWritten(reg, m, h'.canonical.value);
  }

  /** Only a whole key outside the sections can be undefined. */
  predicate JsonKey(k: Text, t: Tree) { (t.Undefined? && !IsSection(k)) || Json(t) }

  /** Writing out what was loaded and loading again changes nothing. */
  lemma ViewIsSettled(r: Rules, h: Home)
    requires RulesOk(r) && Existing(h).Some? && View(r, h).Ok?
    ensures
      var c := View(r, h).value;
      Check(r, StoredConfig(c)) == Ok(c) && (forall k <- c :: JsonKey(k, c[k]))
  {
    var parsed := ReadText(Existing(h).value).value;
    ReadIsJson(Existing(h).value);
    NormalizeIdempotent(r, parsed);
    var c := Normalize(r, parsed);
    VersionStays(r, c);
    forall k <- c ensures JsonKey(k, c[k]) {
      NormalizeAt(r, parsed, k);
      KeyJson(r, parsed, k);
    }
  }

  lemma VersionStays(r: Rules, parsed: Config)
    requires RulesOk(r) && Lookup(parsed, VERSION) == Some(Num(VERSION_TOKEN))
    ensures VersionOk(r, StoredConfig(parsed))
  {
    StoredAt(parsed, VERSION);
    TokensAreNumbers();
  }

  lemma KeyJson(r: Rules, parsed: Config, k: Text)
    requires RulesOk(r) && Json(Obj(parsed)) && KeyNorm(r, k, Lookup(parsed, k)).Some?
    ensures JsonKey(k, KeyNorm(r, k, Lookup(parsed, k)).value)
  {
    if IsSection(k) {
      SectionKey(r, parsed, k);
      SectionNormJson(r, k, Section(parsed, k));
    } else {
      TokensAreNumbers();
    }
  }

  lemma {:induction false} JsonBelow(t: Tree, p: Path)
    requires Json(t)
    ensures Get(t, p).Some? ==> Json(Get(t, p).value)
    decreases |p|
  {
    if p != [] && t.Obj? && p[0] in t.fields {
      JsonBelow(t.fields[p[0]], p[1..]);
    }
  }

  /** Inside a loaded configuration nothing is lost by storing. */
  lemma LoadedPath(c: Config, p: Path)
    requires |p| >= 2 && forall k <- c :: JsonKey(k, c[k])
    ensures StoredOption(Get(Obj(c), p)) == Get(Obj(c), p)
  {
    GetHead(c, p);
    if p[0] in c {
      assert JsonKey(p[0], c[p[0]]);
      if Json(c[p[0]]) { JsonBelow(c[p[0]], p[1..]); }
      if Get(Obj(c), p).Some? { StoredOfJson(Get(Obj(c), p).value); }
    }
  }

  // ---------------------------------------------------------------- what a save does to one path

  /** The path holds the same in both, and the section field above it is the same or an object in both. */
  predicate AlikeAt(a: Config, b: Config, p: Path)
    requires p != []
  {
    && Get(Obj(a), p) == Get(Obj(b), p)
    && (|p| > 2 ==>
          || Get(Obj(a), p[..2]) == Get(Obj(b), p[..2])
          || (IsObject(Get(Obj(a), p[..2])) && IsObject(Get(Obj(b), p[..2]))))
  }

  lemma SameFieldAfterLoad(r: Rules, m: Config, n: Config, p: Path)
    requires RulesOk(r) && |p| >= 2 && IsSection(p[0]) && AlikeAt(m, n, p)
    ensures Get(Obj(Normalize(r, m)), p) == Get(Obj(Normalize(r, n)), p)
  {
    GetField(r, m, p);
    GetField(r, n, p);
    if |p| == 2 {
      assert p[..2] == p;
    } else {
      SplitGet(Obj(m), p, 2);
      SplitGet(Obj(n), p, 2);
      FieldNormCases(r, p[0], p[1], Get(Obj(m), p[..2]));
      FieldNormCases(r, p[0], p[1], Get(Obj(n), p[..2]));
    }
  }

  /** Such a path reads the same after loading either of two files. */
  lemma SameAfterLoad(r: Rules, m: Config, n: Config, p: Path)
    requires RulesOk(r) && p != [] && AlikeAt(m, n, p)
    ensures Get(Obj(Normalize(r, m)), p) == Get(Obj(Normalize(r, n)), p)
  {
    if |p| == 1 {
      assert p == [p[0]];
      GetKey(r, m, p[0]);
      GetKey(r, n, p[0]);
    } else if IsSection(p[0]) {
      SameFieldAfterLoad(r, m, n, p);
    } else {
      GetOther(r, m, p);
      GetOther(r, n, p);
    }
  }

  lemma {:induction false} SplitGet(t: Tree, p: Path, n: nat)
    requires n <= |p|
    ensures Get(t, p) == var x := Get(t, p[..n]); if x.None? then None else Get(x.value, p[n..])
    decreases n
  {
    if n > 0 {
      assert p[..n][1..] == p[1..][..n - 1] && p[1..][n - 1..] == p[n..];
      if t.Obj? && p[0] in t.fields { SplitGet(t.fields[p[0]], p[1..], n - 1); }
    }
  }

  /** Where a delta touches the prefix of a path but not the path, there is a section afterwards. */
  lemma {:induction false} TouchedPrefix(latest: Config, d: Entries, p: Path, n: nat)
    requires 0 < n <= |p| && !Touches(d, p) && Touches(d, p[..n])
    ensures IsObject(Get(Obj(Apply(latest, d)), p[..n]))
    decreases n
  {
    ApplyAt(latest, d, p[0]);
    if n > 1 {
      assert p[..n][1..] == p[1..][..n - 1];
      TouchedPrefix(Section(latest, p[0]), d[p[0]].entries, p[1..], n - 1);
    }
  }

  lemma {:induction false} UnsettledPrefix(a: Config, d: Entries, p: Path, n: nat)
    requires 0 < n <= |p| && Settles(d, p) && !Settles(d, p[..n])
    ensures IsObject(Get(Obj(Apply(a, d)), p[..n]))
    decreases n
  {
    ApplyAt(a, d, p[0]);
    if n > 1 {
      assert p[..n][1..] == p[1..][..n - 1];
      UnsettledPrefix(Section(a, p[0]), d[p[0]].entries, p[1..], n - 1);
    }
  }
}
