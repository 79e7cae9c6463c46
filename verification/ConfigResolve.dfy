/** The cascade of `.climon` directories: where a setting is read from and where it is written to. */
module ConfigResolve {
  import opened Base
  import opened Text
  import opened ConfigTree
  import opened ConfigFiles
  import opened ConfigText
  import opened ConfigStore
  import JR = JsoncRender
  import JV = JsonValue
  import RT = JsoncRoundTrip

  /** An absolute path, as its components from the root. */
  type Dir = seq<string>

  const DOT_CLIMON := ".climon"

  /** HOME, CLIMON_HOME and the working directory of a process. */
  datatype Env = Env(home: Dir, climonHome: Dir, cwd: Dir)

  // ---------------------------------------------------------------- candidate directories

  /** The working directory is the home directory or below it. The source decides by the text of the relative
      path, so a directory of the home whose name starts with two dots does not count. */
  predicate UnderHome(env: Env) {
    env.home <= env.cwd && (env.home == env.cwd || !(".." <= env.cwd[|env.home|]))
  }

  /** The `.climon` directories from the working directory up to, but not including, the home directory. */
  function LocalDirs(env: Env): (dirs: seq<Dir>)
    ensures |dirs| == if UnderHome(env) then |env.cwd| - |env.home| else 1
    ensures forall i :: 0 <= i < |dirs| ==> dirs[i] == env.cwd[..|env.cwd| - i] + [DOT_CLIMON]
  {
    if UnderHome(env) then
      seq(|env.cwd| - |env.home|, i requires 0 <= i < |env.cwd| - |env.home| => env.cwd[..|env.cwd| - i] + [DOT_CLIMON])
    else [env.cwd + [DOT_CLIMON]]
  }

  function Candidates(env: Env): (dirs: seq<Dir>)
    ensures env.climonHome in dirs
  {
    if env.climonHome in LocalDirs(env) then LocalDirs(env) else LocalDirs(env) + [env.climonHome]
  }

  /** candidateConfigDirs: the upward walk ends, at the home directory. */
  method CandidateConfigDirs(env: Env) returns (dirs: seq<Dir>)
    ensures dirs == Candidates(env)
  {
    dirs := [];
    if UnderHome(env) {
      var dir := env.cwd;
      while true
        invariant env.home <= dir <= env.cwd
        invariant dirs == LocalDirs(env)[..|env.cwd| - |dir|]
        decreases |dir|
      {
        if dir == env.home { break; }
        assert dir == env.cwd[..|dir|];
        dirs := dirs + [dir + [DOT_CLIMON]];
        var parent := if dir == [] then [] else dir[..|dir| - 1];
        if parent == dir { break; }
        dir := parent;
      }
    } else {
      dirs := dirs + [env.cwd + [DOT_CLIMON]];
    }
    assert dirs == LocalDirs(env);
    if env.climonHome !in dirs { dirs := dirs + [env.climonHome]; }
  }

  // ---------------------------------------------------------------- reading

  type Files = map<Dir, Home>

  datatype Key = Key(section: Text, field: Text, globalOnly: bool)

  function FilesAt(fs: Files, dir: Dir): Home {
    if dir in fs then fs[dir] else Home(None, None, None)
  }

  predicate HasConfig(fs: Files, dir: Dir) { Existing(FilesAt(fs, dir)).Some? }

  /** readSparseConfig: a directory without a readable configuration reads as an empty one. */
  function ReadSparse(h: Home): Config {
    match Existing(h)
    case None => map[]
    case Some(raw) => match ReadText(raw) case Err(_) => map[] case Ok(parsed) => parsed
  }

  /** readDottedKey. (An array has no properties that a setting could name.) */
  function ReadKey(config: Config, section: Text, field: Text): Option<Tree> {
    Get(Obj(config), [section, field])
  }

  function Defined(fs: Files, dir: Dir, key: Key): Option<Tree> {
    ReadKey(ReadSparse(FilesAt(fs, dir)), key.section, key.field)
  }

  /** The value in the first of the directories that defines the key. */
  function FirstDefined(fs: Files, dirs: seq<Dir>, key: Key): Option<Tree> {
    if dirs == [] then None
    else if Defined(fs, dirs[0], key).Some? then Defined(fs, dirs[0], key)
    else FirstDefined(fs, dirs[1..], key)
  }

  function Resolve(fs: Files, env: Env, key: Key): Option<Tree> {
    if key.globalOnly then Defined(fs, env.climonHome, key) else FirstDefined(fs, Candidates(env), key)
  }

  method ResolveConfigSetting(fs: Files, env: Env, key: Key) returns (value: Option<Tree>)
    ensures value == Resolve(fs, env, key)
  {
    if key.globalOnly { return Defined(fs, env.climonHome, key); }
    var dirs := CandidateConfigDirs(env);
    assert dirs[0..] == dirs;
    for i := 0 to |dirs|
      invariant FirstDefined(fs, dirs, key) == FirstDefined(fs, dirs[i..], key)
    {
      value := Defined(fs, dirs[i], key);
      if value.Some? { return; }
      assert dirs[i..][1..] == dirs[i + 1..];
    }
    value := None;
  }

  // ---------------------------------------------------------------- writing

  datatype Scope = Auto | Local | Global

  function FirstWithConfig(fs: Files, dirs: seq<Dir>): Option<Dir> {
    if dirs == [] then None
    else if HasConfig(fs, dirs[0]) then Some(dirs[0])
    else FirstWithConfig(fs, dirs[1..])
  }

  /** Where a write goes: resolveWriteDirForKey. */
  function Target(fs: Files, env: Env, key: Key, scope: Scope): Dir {
    match scope
    case Local => env.cwd + [DOT_CLIMON]
    case Global => env.climonHome
    case Auto =>
      if key.globalOnly then env.climonHome
      else match FirstWithConfig(fs, Candidates(env)) case Some(dir) => dir case None => env.climonHome
  }

  method ResolveWriteDir(fs: Files, env: Env, key: Key, scope: Scope) returns (dir: Dir)
    ensures dir == Target(fs, env, key, scope)
  {
    if scope.Auto? && key.globalOnly { return env.climonHome; }
    if scope.Local? { return env.cwd + [DOT_CLIMON]; }
    if scope.Global? { return env.climonHome; }
    var dirs := CandidateConfigDirs(env);
    assert dirs[0..] == dirs;
    for i := 0 to |dirs|
      invariant FirstWithConfig(fs, dirs) == FirstWithConfig(fs, dirs[i..])
    {
      if HasConfig(fs, dirs[i]) { return dirs[i]; }
      assert dirs[i..][1..] == dirs[i + 1..];
    }
    dir := env.climonHome;
  }

  /** The record after `sub[field] = value; record[section] = sub`. Assigning to an array sets a property that
      no file keeps. */
  function SetKey(config: Config, section: Text, field: Text, value: Tree): Config {
    if section in config && config[section].Arr? then config
    else config[section := Obj(Section(config, section)[field := value])]
  }

  /** The directory's files after a write, and every other directory as before. */
  ghost predicate Writes(reg: JR.Registry, fs: Files, fs': Files, dir: Dir, key: Key, value: Tree) {
    && Wrote(reg, SetKey(ReadSparse(FilesAt(fs, dir)), key.section, key.field, value), FilesAt(fs, dir), FilesAt(fs', dir))
    && forall d :: d != dir ==> FilesAt(fs', d) == FilesAt(fs, d)
  }

  class ConfigDirs {
    const reg: JR.Registry
    var fs: Files

    constructor (reg: JR.Registry, fs: Files)
      ensures this.reg == reg && this.fs == fs
    {
      this.reg, this.fs := reg, fs;
    }

    /** writeConfigSetting. `coerced` is the value read as the setting's type, none when that throws. */
    method WriteConfigSetting(env: Env, key: Key, scope: Scope, coerced: Option<Tree>) returns (dir: Option<Dir>)
      modifies this
      ensures coerced.None? ==> dir.None? && fs == old(fs)
      ensures coerced.Some? ==>
        dir == Some(Target(old(fs), env, key, scope)) && Writes(reg, old(fs), fs, dir.value, key, coerced.value)
    {
      var target := ResolveWriteDir(fs, env, key, scope);
      var current := ReadSparse(FilesAt(fs, target));
      if coerced.None? { return None; }
      if key.section in current && current[key.section].Arr? {
      } else {
        var sub := Section(current, key.section);
        sub := sub[key.field := coerced.value];
        current := current[key.section := Obj(sub)];
      }
      var files := WriteHome(reg, current, FilesAt(fs, target));
      fs := fs[target := files];
      dir := Some(target);
    }
  }

  // ---------------------------------------------------------------- the nearest directory wins

  /** The `.climon` directory at depth n on the way down to the working directory. */
  function At(env: Env, n: nat): Dir
    requires n <= |env.cwd|
  {
    env.cwd[..n] + [".climon"]
  }

  /** Below the home directory, in a directory of it whose name does not start with two dots. */
  predicate Below(env: Env) {
    env.home <= env.cwd && |env.home| < |env.cwd| && !(".." <= env.cwd[|env.home|])
  }

  lemma {:induction false} FirstDefinedFrom(fs: Files, dirs: seq<Dir>, rest: seq<Dir>, key: Key, i: nat)
    requires i < |dirs| && forall j :: 0 <= j < i ==> Defined(fs, dirs[j], key).None?
    ensures Defined(fs, dirs[i], key).Some? ==> FirstDefined(fs, dirs + rest, key) == Defined(fs, dirs[i], key)
    decreases i
  {
    hide Defined;
    assert (dirs + rest)[1..] == dirs[1..] + rest;
    if i > 0 { FirstDefinedFrom(fs, dirs[1..], rest, key, i - 1); }
  }

  lemma {:induction false} NoneDefinedBefore(fs: Files, dirs: seq<Dir>, rest: seq<Dir>, key: Key)
    requires forall d <- dirs :: Defined(fs, d, key).None?
    ensures FirstDefined(fs, dirs + rest, key) == FirstDefined(fs, rest, key)
  {
    if dirs == [] {
      assert dirs + rest == rest;
    } else {
      hide Defined;
      assert dirs[0] in dirs && (dirs + rest)[1..] == dirs[1..] + rest;
      NoneDefinedBefore(fs, dirs[1..], rest, key);
    }
  }

  /** Below the home a key is read from the nearest directory on the way up that defines it, and from the global
      home only if none does. */
  lemma NearestIsRead(fs: Files, env: Env, key: Key)
    requires Below(env) && !key.globalOnly
    ensures forall n | |env.home| < n <= |env.cwd| ::
      Defined(fs, At(env, n), key).Some? && (forall m | n < m <= |env.cwd| :: Defined(fs, At(env, m), key).None?) ==>
        Resolve(fs, env, key) == Defined(fs, At(env, n), key)
    ensures (forall n | |env.home| < n <= |env.cwd| :: Defined(fs, At(env, n), key).None?) ==>
      Resolve(fs, env, key) == Defined(fs, env.climonHome, key)
  {
    hide Defined;
    var dirs := LocalDirs(env);
    assert UnderHome(env);
    assert dirs + [] == dirs;
    var rest := if env.climonHome in dirs then [] else [env.climonHome];
    assert Candidates(env) == dirs + rest;
    forall n | |env.home| < n <= |env.cwd|
               && Defined(fs, At(env, n), key).Some? && (forall m | n < m <= |env.cwd| :: Defined(fs, At(env, m), key).None?)
      ensures Resolve(fs, env, key) == Defined(fs, At(env, n), key)
    {
      var i := |env.cwd| - n;
      forall j | 0 <= j < i ensures Defined(fs, dirs[j], key).None? { assert dirs[j] == At(env, |env.cwd| - j); }
      assert dirs[i] == At(env, n);
      FirstDefinedFrom(fs, dirs, rest, key, i);
    }
    if forall n | |env.home| < n <= |env.cwd| :: Defined(fs, At(env, n), key).None? {
      forall d <- dirs ensures Defined(fs, d, key).None? {
        var j :| 0 <= j < |dirs| && dirs[j] == d;
        assert d == At(env, |env.cwd| - j);
      }
      NoneDefinedBefore(fs, dirs, rest, key);
      assert [env.climonHome][1..] == [];
    }
  }

  /** Elsewhere it is read from the working directory, unless that is the home itself, and then from the global
      home. A global-only key is read from the global home alone. */
  lemma ReadElsewhere(fs: Files, env: Env, key: Key)
    requires !Below(env) || key.globalOnly
    ensures
      var own := env.cwd + [".climon"];
      Resolve(fs, env, key) ==
        if !key.globalOnly && env.cwd != env.home && Defined(fs, own, key).Some? then Defined(fs, own, key)
        else Defined(fs, env.climonHome, key)
  {
    hide Defined;
    if !key.globalOnly {
      var own := env.cwd + [DOT_CLIMON];
      var dirs := LocalDirs(env);
      assert dirs == if env.cwd == env.home then [] else [own];
      var rest := if env.climonHome in dirs then [] else [env.climonHome];
      assert Candidates(env) == dirs + rest;
      assert [env.climonHome][1..] == [];
      if env.cwd != env.home && Defined(fs, own, key).Some? {
        FirstDefinedFrom(fs, dirs, rest, key, 0);
      } else {
        NoneDefinedBefore(fs, dirs, rest, key);
      }
    }
  }

  /** One of the two configuration files is there. */
  predicate HoldsFile(fs: Files, dir: Dir) {
    dir in fs && (fs[dir].canonical.Some? || fs[dir].legacy.Some?)
  }

  lemma {:induction false} FirstWithConfigAt(fs: Files, dirs: seq<Dir>, rest: seq<Dir>, i: nat)
    requires i < |dirs| && HoldsFile(fs, dirs[i]) && forall j :: 0 <= j < i ==> !HoldsFile(fs, dirs[j])
    ensures FirstWithConfig(fs, dirs + rest) == Some(dirs[i])
    decreases i
  {
    assert (dirs + rest)[1..] == dirs[1..] + rest;
    if i > 0 { FirstWithConfigAt(fs, dirs[1..], rest, i - 1); }
  }

  lemma {:induction false} NoneWithConfig(fs: Files, dirs: seq<Dir>, rest: seq<Dir>)
    requires forall d <- dirs :: !HoldsFile(fs, d)
    ensures FirstWithConfig(fs, dirs + rest) == FirstWithConfig(fs, rest)
  {
    if dirs == [] {
      assert dirs + rest == rest;
    } else {
      assert dirs[0] in dirs && (dirs + rest)[1..] == dirs[1..] + rest;
      NoneWithConfig(fs, dirs[1..], rest);
    }
  }

  /** Below the home a write without a scope goes to the nearest directory on the way up that holds a configuration
      file, and to the global home if none does. */
  lemma NearestIsWritten(fs: Files, env: Env, key: Key)
    requires Below(env) && !key.globalOnly
    ensures forall n | |env.home| < n <= |env.cwd| ::
      HoldsFile(fs, At(env, n)) && (forall m | n < m <= |env.cwd| :: !HoldsFile(fs, At(env, m))) ==>
        Target(fs, env, key, Auto) == At(env, n)
    ensures (forall n | |env.home| < n <= |env.cwd| :: !HoldsFile(fs, At(env, n))) ==>
      Target(fs, env, key, Auto) == env.climonHome
  {
    hide HoldsFile;
    var dirs := LocalDirs(env);
    assert UnderHome(env);
    assert dirs + [] == dirs;
    var rest := if env.climonHome in dirs then [] else [env.climonHome];
    assert Candidates(env) == dirs + rest;
    forall n | |env.home| < n <= |env.cwd|
               && HoldsFile(fs, At(env, n)) && (forall m | n < m <= |env.cwd| :: !HoldsFile(fs, At(env, m)))
      ensures Target(fs, env, key, Auto) == At(env, n)
    {
      var i := |env.cwd| - n;
      forall j | 0 <= j < i ensures !HoldsFile(fs, dirs[j]) { assert dirs[j] == At(env, |env.cwd| - j); }
      assert dirs[i] == At(env, n);
      FirstWithConfigAt(fs, dirs, rest, i);
    }
    if forall n | |env.home| < n <= |env.cwd| :: !HoldsFile(fs, At(env, n)) {
      forall d <- dirs ensures !HoldsFile(fs, d) {
        var j :| 0 <= j < |dirs| && dirs[j] == d;
        assert d == At(env, |env.cwd| - j);
      }
      NoneWithConfig(fs, dirs, rest);
      assert [env.climonHome][1..] == [];
    }
  }

  /** Elsewhere it goes to the working directory's own, if that holds a file and is not the home's, else to the
      global home; so does every write of a global-only key. A local write goes to the working directory's own, a
      global one to the global home. */
  lemma WrittenElsewhere(fs: Files, env: Env, key: Key)
    ensures Target(fs, env, key, Local) == env.cwd + [".climon"] && Target(fs, env, key, Global) == env.climonHome
    ensures !Below(env) || key.globalOnly ==>
      Target(fs, env, key, Auto) ==
        if !key.globalOnly && env.cwd != env.home && HoldsFile(fs, env.cwd + [".climon"]) then env.cwd + [".climon"]
        else env.climonHome
  {
    var own := env.cwd + [DOT_CLIMON];
    if !Below(env) && !key.globalOnly {
      var dirs := LocalDirs(env);
      assert dirs == if env.cwd == env.home then [] else [own];
      var rest := if env.climonHome in dirs then [] else [env.climonHome];
      assert Candidates(env) == dirs + rest;
      assert [env.climonHome][1..] == [];
      if env.cwd != env.home && HoldsFile(fs, own) {
        FirstWithConfigAt(fs, dirs, rest, 0);
      } else {
        NoneWithConfig(fs, dirs, rest);
      }
    }
  }

  // ---------------------------------------------------------------- what a write changes

  /** The section of the target directory is an array: the one case in which a write is lost. */
  predicate ArraySection(fs: Files, dir: Dir, key: Key) {
    var config := ReadSparse(FilesAt(fs, dir));
    key.section in config && config[key.section].Arr?
  }

  lemma ReadKeyIs(config: Config, section: Text, field: Text)
    ensures ReadKey(config, section, field) ==
              if section in config && config[section].Obj? && field in config[section].fields
              then Some(config[section].fields[field]) else None
  {
    GetHead(config, [section, field]);
    if section in config && config[section].Obj? { GetHead(config[section].fields, [field]); }
  }

  lemma ReadSparseIsJson(h: Home)
    ensures Json(Obj(ReadSparse(h)))
  {
    if Existing(h).Some? { ReadIsJson(Existing(h).value); }
  }

  /** What the written directory defines afterwards. */
  lemma DefinedAfterWrite(reg: JR.Registry, fs: Files, fs': Files, dir: Dir, key: Key, value: Tree, other: Key)
    requires RT.OneLine(reg) && Writes(reg, fs, fs', dir, key, value) && !value.Undefined?
    ensures
      Defined(fs', dir, other) ==
        if other.section == key.section && other.field == key.field && !ArraySection(fs, dir, key)
        then Some(Stored(value)) else Defined(fs, dir, other)
  {
    var config := ReadSparse(FilesAt(fs, dir));
    var next := SetKey(config, key.section, key.field, value);
    ReadWritten(reg, next, FilesAt(fs', dir).canonical.value);
    GetStored(next, [other.section, other.field]);
    ReadSparseIsJson(FilesAt(fs, dir));
    StoredOfJson(Obj(config));
    GetStored(config, [other.section, other.field]);
    ReadKeyIs(config, other.section, other.field);
    ReadKeyIs(next, other.section, other.field);
  }

  lemma {:induction false} FirstDefinedSame(fs: Files, fs': Files, dirs: seq<Dir>, key: Key)
    requires forall d <- dirs :: Defined(fs', d, key) == Defined(fs, d, key)
    ensures FirstDefined(fs', dirs, key) == FirstDefined(fs, dirs, key)
  {
    if dirs != [] {
      FirstDefinedSame(fs, fs', dirs[1..], key);
    }
  }

  /** No directory before `dir` defines the key. */
  predicate Reaches(fs: Files, dirs: seq<Dir>, dir: Dir, key: Key) {
    dirs != [] && (dirs[0] == dir || (Defined(fs, dirs[0], key).None? && Reaches(fs, dirs[1..], dir, key)))
  }

  lemma {:induction false} FirstDefinedAfterWrite(fs: Files, fs': Files, dirs: seq<Dir>, dir: Dir, key: Key, v: Tree)
    requires forall d :: d != dir ==> Defined(fs', d, key) == Defined(fs, d, key)
    requires Defined(fs', dir, key) == Some(v)
    ensures FirstDefined(fs', dirs, key) == if Reaches(fs, dirs, dir, key) then Some(v) else FirstDefined(fs, dirs, key)
  {
    if dirs != [] {
      FirstDefinedAfterWrite(fs, fs', dirs[1..], dir, key, v);
    }
  }

  /** The effect of any write, in any scope, on how any key resolves from any directory: the written key takes
      the value where a read from there gets as far as the written directory; every other key is as before. */
  lemma ResolveAfterWrite(reg: JR.Registry, fs: Files, fs': Files, dir: Dir, key: Key, value: Tree, env: Env, other: Key)
    requires RT.OneLine(reg) && Writes(reg, fs, fs', dir, key, value) && !value.Undefined?
    requires other.section == key.section && other.field == key.field ==> other == key
    ensures
      var seen := if key.globalOnly then dir == env.climonHome else Reaches(fs, Candidates(env), dir, key);
      Resolve(fs', env, other) ==
        if other == key && !ArraySection(fs, dir, key) && seen then Some(Stored(value)) else Resolve(fs, env, other)
  {
    DefinedAfterWrite(reg, fs, fs', dir, key, value, other);
    if other == key && !ArraySection(fs, dir, key) {
      FirstDefinedAfterWrite(fs, fs', Candidates(env), dir, key, Stored(value));
    } else {
      FirstDefinedSame(fs, fs', Candidates(env), other);
    }
  }

  lemma {:induction false} FirstWithConfigReaches(fs: Files, dirs: seq<Dir>, key: Key)
    requires FirstWithConfig(fs, dirs).Some?
    ensures Reaches(fs, dirs, FirstWithConfig(fs, dirs).value, key)
  {
    if !HasConfig(fs, dirs[0]) {
      NothingDefined(fs, dirs[0], key);
      FirstWithConfigReaches(fs, dirs[1..], key);
    }
  }

  lemma NothingDefined(fs: Files, dir: Dir, key: Key)
    requires !HasConfig(fs, dir)
    ensures Defined(fs, dir, key) == None
  {
  }

  lemma {:induction false} NoConfigReaches(fs: Files, dirs: seq<Dir>, dir: Dir, key: Key)
    requires FirstWithConfig(fs, dirs).None? && dir in dirs
    ensures Reaches(fs, dirs, dir, key)
  {
    if dirs[0] != dir {
      NothingDefined(fs, dirs[0], key);
      NoConfigReaches(fs, dirs[1..], dir, key);
    }
  }

  /** Read your writes: after an auto-scope write, reading the key from the same directory gives the written
      value, unless its section is an array in the target file, and then the write is lost. */
  lemma ReadYourWrites(reg: JR.Registry, fs: Files, fs': Files, env: Env, key: Key, value: Tree)
    requires RT.OneLine(reg) && !value.Undefined?
    requires Writes(reg, fs, fs', Target(fs, env, key, Auto), key, value)
    ensures
      Resolve(fs', env, key) ==
        if ArraySection(fs, Target(fs, env, key, Auto), key) then Resolve(fs, env, key) else Some(Stored(value))
  {
    var dir := Target(fs, env, key, Auto);
    ResolveAfterWrite(reg, fs, fs', dir, key, value, env, key);
    if !key.globalOnly {
      if FirstWithConfig(fs, Candidates(env)).Some? {
        FirstWithConfigReaches(fs, Candidates(env), key);
      } else {
        NoConfigReaches(fs, Candidates(env), dir, key);
      }
    }
  }

  /** A local write of any other key is read back from the same directory, unless that is the home directory
      itself: there the local `.climon` is no candidate, and only counts if it is the global home. */
  lemma LocalWriteIsRead(reg: JR.Registry, fs: Files, fs': Files, env: Env, key: Key, value: Tree)
    requires RT.OneLine(reg) && !value.Undefined? && !key.globalOnly
    requires Writes(reg, fs, fs', Target(fs, env, key, Local), key, value)
    requires !ArraySection(fs, Target(fs, env, key, Local), key)
    ensures Resolve(fs', env, key) ==
              if env.cwd != env.home || env.climonHome == env.cwd + [DOT_CLIMON] then Some(Stored(value)) else Resolve(fs, env, key)
  {
    var dir := Target(fs, env, key, Local);
    ResolveAfterWrite(reg, fs, fs', dir, key, value, env, key);
    if env.cwd != env.home {
      assert LocalDirs(env)[0] == dir by { assert env.cwd[..|env.cwd|] == env.cwd; }
      assert Candidates(env)[0] == dir;
    } else {
      assert Candidates(env) == [env.climonHome];
    }
  }

  /** A local write of a key that is read only from the global home is lost to every reader, unless the local
      directory is that home. */
  lemma LocalWriteOfGlobalKey(reg: JR.Registry, fs: Files, fs': Files, writer: Env, reader: Env, key: Key, value: Tree)
    requires RT.OneLine(reg) && !value.Undefined? && key.globalOnly
    requires Writes(reg, fs, fs', Target(fs, writer, key, Local), key, value)
    requires !ArraySection(fs, Target(fs, writer, key, Local), key)
    ensures Resolve(fs', reader, key) ==
              if reader.climonHome == writer.cwd + [DOT_CLIMON] then Some(Stored(value)) else Resolve(fs, reader, key)
  {
    ResolveAfterWrite(reg, fs, fs', Target(fs, writer, key, Local), key, value, reader, key);
  }

  /** A global write of a global-only key is read exactly by the readers whose global home is the writer's. A global
      write of another key is read by those for which no nearer directory defines it. */
  lemma GlobalWriteIsRead(reg: JR.Registry, fs: Files, fs': Files, writer: Env, reader: Env, key: Key, value: Tree)
    requires RT.OneLine(reg) && !value.Undefined?
    requires Writes(reg, fs, fs', Target(fs, writer, key, Global), key, value)
    requires !ArraySection(fs, writer.climonHome, key)
    ensures key.globalOnly ==>
      Resolve(fs', reader, key) == if reader.climonHome == writer.climonHome then Some(Stored(value)) else Resolve(fs, reader, key)
    ensures !key.globalOnly && Below(reader) && reader.climonHome == writer.climonHome
            && (forall n | |reader.home| < n <= |reader.cwd| :: At(reader, n) == writer.climonHome || Defined(fs, At(reader, n), key).None?) ==>
      Resolve(fs', reader, key) == Some(Stored(value))
    ensures !key.globalOnly && Below(reader)
            && (exists n | |reader.home| < n <= |reader.cwd| ::
                  Defined(fs, At(reader, n), key).Some? && forall m | n <= m <= |reader.cwd| :: At(reader, m) != writer.climonHome) ==>
      Resolve(fs', reader, key) == Resolve(fs, reader, key)
  {
    ResolveAfterWrite(reg, fs, fs', writer.climonHome, key, value, reader, key);
    if !key.globalOnly && Below(reader) { GlobalWriteReaches(fs, writer.climonHome, reader, key); }
  }

  /** How far a read gets on the way up, for a directory that is the global home or on the way. */
  lemma GlobalWriteReaches(fs: Files, dir: Dir, reader: Env, key: Key)
    requires Below(reader)
    ensures reader.climonHome == dir
            && (forall n | |reader.home| < n <= |reader.cwd| :: At(reader, n) == dir || Defined(fs, At(reader, n), key).None?) ==>
      Reaches(fs, Candidates(reader), dir, key)
    ensures (exists n | |reader.home| < n <= |reader.cwd| ::
               Defined(fs, At(reader, n), key).Some? && forall m | n <= m <= |reader.cwd| :: At(reader, m) != dir) ==>
      !Reaches(fs, Candidates(reader), dir, key)
  {
    hide Defined, Reaches;
    var dirs := Candidates(reader);
    var local := LocalDirs(reader);
    assert UnderHome(reader) && local <= dirs;
    if reader.climonHome == dir
       && (forall n | |reader.home| < n <= |reader.cwd| :: At(reader, n) == dir || Defined(fs, At(reader, n), key).None?) {
      forall i | 0 <= i < |dirs| ensures dirs[i] == dir || Defined(fs, dirs[i], key).None? {
        if i < |local| { assert dirs[i] == At(reader, |reader.cwd| - i); }
      }
      ReachesIfClear(fs, dirs, dir, key);
    }
    if n :| |reader.home| < n <= |reader.cwd|
            && Defined(fs, At(reader, n), key).Some? && forall m | n <= m <= |reader.cwd| :: At(reader, m) != dir {
      var i := |reader.cwd| - n;
      assert dirs[i] == local[i] == At(reader, n);
      forall j | 0 <= j <= i ensures dirs[j] != dir { assert dirs[j] == local[j] == At(reader, |reader.cwd| - j); }
      StoppedBefore(fs, dirs, dir, key, i);
    }
  }

  lemma {:induction false} ReachesIfClear(fs: Files, dirs: seq<Dir>, dir: Dir, key: Key)
    requires dir in dirs && forall i :: 0 <= i < |dirs| ==> dirs[i] == dir || Defined(fs, dirs[i], key).None?
    ensures Reaches(fs, dirs, dir, key)
  {
    hide Defined;
    if dirs[0] != dir { ReachesIfClear(fs, dirs[1..], dir, key); }
  }

  lemma {:induction false} StoppedBefore(fs: Files, dirs: seq<Dir>, dir: Dir, key: Key, i: nat)
    requires i < |dirs| && Defined(fs, dirs[i], key).Some? && forall j :: 0 <= j <= i ==> dirs[j] != dir
    ensures !Reaches(fs, dirs, dir, key)
    decreases i
  {
    hide Defined;
    if i > 0 { StoppedBefore(fs, dirs[1..], dir, key, i - 1); }
  }

  /** A global-only key depends on the files of the global home alone; any other key only on the files of the
      candidate directories. */
  lemma ResolveDependsOn(fs: Files, fs': Files, env: Env, key: Key)
    requires key.globalOnly ==> FilesAt(fs, env.climonHome) == FilesAt(fs', env.climonHome)
    requires !key.globalOnly ==> forall d <- Candidates(env) :: FilesAt(fs, d) == FilesAt(fs', d)
    ensures Resolve(fs, env, key) == Resolve(fs', env, key)
  {
    if !key.globalOnly {
      FirstDefinedSame(fs', fs, Candidates(env), key);
    }
  }

  /** No directory at or above the home directory is a project source, unless the working directory is one: below
      the home the candidates are the directories down to the working directory, elsewhere the working directory
      alone; and always the global home. */
  lemma CandidatesAre(env: Env, dir: Dir)
    ensures dir in Candidates(env) <==>
              || dir == env.climonHome
              || (if UnderHome(env) then exists n :: |env.home| < n <= |env.cwd| && dir == env.cwd[..n] + [DOT_CLIMON]
                  else dir == env.cwd + [DOT_CLIMON])
  {
    if UnderHome(env) {
      if n :| |env.home| < n <= |env.cwd| && dir == env.cwd[..n] + [DOT_CLIMON] {
        assert LocalDirs(env)[|env.cwd| - n] == dir;
      }
      if dir in LocalDirs(env) {
        var i :| 0 <= i < |LocalDirs(env)| && LocalDirs(env)[i] == dir;
        assert dir == env.cwd[..|env.cwd| - i] + [DOT_CLIMON];
      }
    } else {
      assert LocalDirs(env)[0] == env.cwd[..|env.cwd|] + [DOT_CLIMON] && env.cwd[..|env.cwd|] == env.cwd;
    }
  }

  /** Every directory from below the home down to the working directory is a candidate. */
  ghost predicate WalkIsComplete(env: Env)
    requires env.home <= env.cwd
  {
    forall n :: |env.home| < n <= |env.cwd| ==> env.cwd[..n] + [DOT_CLIMON] in Candidates(env)
  }

  /** From the home directory or below it, the walk misses no directory exactly if the first directory below the
      home does not start with two dots, or the working directory is that directory, or is directly inside it and
      the missed one is the global home. */
  lemma WalkIsCompleteExactlyIf(env: Env)
    requires env.home <= env.cwd
    ensures WalkIsComplete(env) <==>
              || UnderHome(env)
              || |env.cwd| == |env.home| + 1
              || (|env.cwd| == |env.home| + 2 && env.climonHome == env.cwd[..|env.home| + 1] + [DOT_CLIMON])
  {
    var h := |env.home|;
    forall n | h < n <= |env.cwd|
      ensures env.cwd[..n] + [DOT_CLIMON] in Candidates(env) <==>
                UnderHome(env) || n == |env.cwd| || env.climonHome == env.cwd[..n] + [DOT_CLIMON]
    {
      var dir := env.cwd[..n] + [DOT_CLIMON];
      CandidatesAre(env, dir);
      assert env.cwd[..|env.cwd|] == env.cwd && |dir| == n + 1;
    }
    if !UnderHome(env) && WalkIsComplete(env) && |env.cwd| > h + 1 {
      var n := if |env.cwd| > h + 2 then h + 2 else h + 1;
      assert env.cwd[..h + 1] + [DOT_CLIMON] in Candidates(env) && env.cwd[..n] + [DOT_CLIMON] in Candidates(env);
      assert |env.cwd[..h + 1] + [DOT_CLIMON]| == h + 2 && |env.cwd[..n] + [DOT_CLIMON]| == n + 1;
    }
  }

  /** An input: inside `..x` below the home, one level down, the configuration of `..x` is not looked at. */
  method DotsDirectoryIsMissed() returns (dirs: seq<Dir>)
    ensures ["home", "u", "..x", "p", ".climon"] in dirs
    ensures ["home", "u", "..x", ".climon"] !in dirs
  {
    var env := Env(["home", "u"], ["home", "u", ".climon"], ["home", "u", "..x", "p"]);
    dirs := CandidateConfigDirs(env);
    var first := env.cwd[2];
    assert first[0] == '.' && first[1] == '.';
    assert !UnderHome(env);
    var missed, own := ["home", "u", "..x", ".climon"], ["home", "u", "..x", "p", ".climon"];
    CandidatesAre(env, missed);
    CandidatesAre(env, own);
    assert own == env.cwd + [DOT_CLIMON] && |missed| == 4 && |own| == 5;
    assert missed != env.climonHome;
  }

  // ---------------------------------------------------------------- a section that is an array

  /** An input: a global home whose only file holds `[]` as the section loses every write to that section. */
  lemma ArraySectionLosesWrite(reg: JR.Registry, env: Env, key: Key, value: Tree) returns (fs: Files)
    requires RT.OneLine(reg) && !value.Undefined?
    ensures ArraySection(fs, Target(fs, env, key, Auto), key)
    ensures forall fs' :: Writes(reg, fs, fs', Target(fs, env, key, Auto), key, value) ==>
              Resolve(fs', env, key) == Resolve(fs, env, key)
  {
    var raw := ArrayFile(reg, key.section);
    fs := map[env.climonHome := Home(Some(raw), None, None)];
    OnlyOneHasConfig(fs, Candidates(env), env.climonHome);
    var dir := Target(fs, env, key, Auto);
    assert dir == env.climonHome;
    forall fs' | Writes(reg, fs, fs', dir, key, value) ensures Resolve(fs', env, key) == Resolve(fs, env, key) {
      ReadYourWrites(reg, fs, fs', env, key, value);
    }
  }

  /** The text of a file that holds `[]` under one key. */
  lemma ArrayFile(reg: JR.Registry, k: Text) returns (raw: Text)
    requires RT.OneLine(reg)
    ensures ReadText(raw) == Ok(map[k := Arr([])])
  {
    var fields := [JV.Field(k, JV.Arr([]))];
    var m: Config := map[k := Arr([])];
    raw := JR.RenderConfig(reg, fields, true);
    ArrayTree(k);
    assert Written(reg, m, raw);
    ReadWritten(reg, m, raw);
    StoredOfJson(Obj(m));
  }

  lemma ArrayTree(k: Text)
    ensures
      var v := JV.Obj([JV.Field(k, JV.Arr([]))]);
      JV.WellFormed(v) && JV.ToTree(v) == Obj(map[k := Arr([])])
  {
    var fields := [JV.Field(k, JV.Arr([]))];
    assert JV.ToTree(JV.Arr([])) == Arr([]);
    assert JV.ToMap(fields, 0) == map[] && JV.ToMap(fields, 1) == JV.ToMap(fields, 0)[k := Arr([])];
  }

  lemma {:induction false} OnlyOneHasConfig(fs: Files, dirs: seq<Dir>, dir: Dir)
    requires forall d :: HasConfig(fs, d) ==> d == dir
    ensures FirstWithConfig(fs, dirs).Some? ==> FirstWithConfig(fs, dirs).value == dir
  {
    if dirs != [] { OnlyOneHasConfig(fs, dirs[1..], dir); }
  }
}
