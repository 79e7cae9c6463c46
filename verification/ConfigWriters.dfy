/** What saves by many writers do to each other, path by path and over whole runs. */
module ConfigWriters {
  import opened Base
  import opened Text
  import opened ConfigTree
  import opened ConfigFiles
  import opened ConfigMerge
  import opened ConfigLoad
  import opened ConfigStore
  import opened ConfigText
  import JV = JsonValue
  import JR = JsoncRender
  import RT = JsoncRoundTrip

  /** What every process reads of a home: the canonical file if there is one, else the legacy file, else the
      registry's defaults. A file that cannot be read or has another version gives an error. */
  lemma ViewIs(r: Rules, h: Home)
    ensures h.canonical.None? && h.legacy.None? ==> View(r, h) == Ok(r.defaults)
    ensures h.canonical.Some? || h.legacy.Some? ==>
      var read := ReadText(if h.canonical.Some? then h.canonical.value else h.legacy.value);
      if read.Err? then View(r, h).Err?
      else if Ascii("version") in read.value
              && !(read.value[Ascii("version")].Num? && r.isOne(read.value[Ascii("version")].token)) then View(r, h).Err?
      else View(r, h).Ok? && Loaded(r, read.value, View(r, h).value)
  {
    hide Loaded, Ascii;
    NamesOfKeys();
    var raw := Existing(h);
    if raw.Some? && ReadText(raw.value).Ok? { NormalizeIsLoaded(r, ReadText(raw.value).value); }
  }

  // ---------------------------------------------------------------- one save, on trees

  lemma UntouchedAfterLoad(r: Rules, c: Config, d: Entries, p: Path)
    requires RulesOk(r) && p != [] && !Touches(d, p)
    requires c == Normalize(r, StoredConfig(c)) && forall k <- c :: JsonKey(k, c[k])
    ensures Get(Obj(Normalize(r, StoredConfig(Apply(c, d)))), p) == Get(Obj(c), p)
  {
    var m, n := StoredConfig(Apply(c, d)), StoredConfig(c);
    UntouchedPathKept(c, d, p);
    GetStored(Apply(c, d), p);
    GetStored(c, p);
    if |p| <= 2 {
      SameAfterLoad(r, m, n, p);
    } else {
      GetStored(Apply(c, d), p[..2]);
      GetStored(c, p[..2]);
      if !Touches(d, p[..2]) {
        UntouchedPathKept(c, d, p[..2]);
        SameAfterLoad(r, m, n, p);
      } else {
        TouchedPrefix(c, d, p, 2);
        if IsObject(Get(Obj(n), p[..2])) {
          SameAfterLoad(r, m, n, p);
        } else {
          LoadedPath(c, p);
          SplitGet(Obj(n), p, 2);
          NothingBelow(r, m, p);
        }
      }
    }
  }

  /** A path that is missing inside an object field is missing after a load. */
  lemma NothingBelow(r: Rules, m: Config, p: Path)
    requires RulesOk(r) && |p| > 2 && IsObject(Get(Obj(m), p[..2])) && Get(Obj(m), p) == None
    ensures Get(Obj(Normalize(r, m)), p) == None
  {
    if IsSection(p[0]) {
      GetField(r, m, p);
      SplitGet(Obj(m), p, 2);
      FieldNormCases(r, p[0], p[1], Get(Obj(m), p[..2]));
    } else {
      GetOther(r, m, p);
    }
  }

  lemma SettledAfterLoad(r: Rules, latest: Config, golden: Config, current: Config, p: Path)
    requires RulesOk(r) && p != [] && Settles(DiffFields(golden, current), p)
    ensures Get(Obj(Normalize(r, StoredConfig(Apply(latest, DiffFields(golden, current))))), p)
         == Get(Obj(Normalize(r, StoredConfig(current))), p)
  {
    var d := DiffFields(golden, current);
    ApplyDiff(golden, current);
    SettledPathFixed(latest, golden, d, p);
    GetStored(Apply(latest, d), p);
    GetStored(current, p);
    if |p| > 2 {
      GetStored(Apply(latest, d), p[..2]);
      GetStored(current, p[..2]);
      if Settles(d, p[..2]) {
        SettledPathFixed(latest, golden, d, p[..2]);
      } else {
        UnsettledPrefix(latest, d, p, 2);
        UnsettledPrefix(golden, d, p, 2);
      }
    }
    SameAfterLoad(r, StoredConfig(Apply(latest, d)), StoredConfig(current), p);
  }

  lemma {:induction false} UnalignedIsSettled(golden: Config, current: Config, p: Path)
    requires p != [] && Get(Obj(golden), p) == Get(Obj(current), p) && !Aligned(golden, current, p)
    ensures Settles(DiffFields(golden, current), p)
    decreases |p|
  {
    var k := p[0];
    DiffAt(golden, current, k);
    if k in golden && k in current && golden[k].Obj? && current[k].Obj? {
      ApplyDiff(golden[k].fields, current[k].fields);
      UnalignedIsSettled(golden[k].fields, current[k].fields, p[1..]);
    }
  }

  // ---------------------------------------------------------------- one save, as readers see it

  /** The owner changed the value at the path (and it is not an object before and after). */
  predicate Changed(golden: Config, value: Config, p: Path) {
    && Get(Obj(golden), p) != Get(Obj(value), p)
    && !(IsObject(Get(Obj(golden), p)) && IsObject(Get(Obj(value), p)))
  }

  /** What readers find at a path after a save: `latest` is what they found before. */
  lemma SavedPath(r: Rules, latest: Config, golden: Config, value: Config, p: Path)
    requires RulesOk(r) && p != []
    requires latest == Normalize(r, StoredConfig(latest)) && forall k <- latest :: JsonKey(k, latest[k])
    ensures
      var after := Obj(Normalize(r, StoredConfig(Apply(latest, DiffFields(golden, value)))));
      var own := Obj(Normalize(r, StoredConfig(value)));
      && (Changed(golden, value, p) ==> Get(after, p) == Get(own, p))
      && (Get(Obj(golden), p) == Get(Obj(value), p) ==>
            Get(after, p) == if Aligned(golden, value, p) then Get(Obj(latest), p) else Get(own, p))
  {
    if Changed(golden, value, p) {
      ChangedPathSettled(golden, value, p);
      SettledAfterLoad(r, latest, golden, value, p);
    }
    if Get(Obj(golden), p) == Get(Obj(value), p) {
      UnchangedIsUntouchedIffAligned(golden, value, p);
      if Aligned(golden, value, p) {
        UntouchedAfterLoad(r, latest, DiffFields(golden, value), p);
      } else {
        UnalignedIsSettled(golden, value, p);
        SettledAfterLoad(r, latest, golden, value, p);
      }
    }
  }

  lemma ViewAfterSave(r: Rules, reg: JR.Registry, id: nat, w: World, w': World)
    requires RulesOk(r) && RT.OneLine(reg) && SaveStep(r, reg, id, w, w')
    requires id in w.golden && Existing(w.home).Some?
    ensures View(r, w.home).Ok? ==>
      && View(r, w'.home) == Check(r, StoredConfig(Merged(w, id, View(r, w.home).value)))
      && var latest := View(r, w.home).value;
         Check(r, StoredConfig(latest)) == Ok(latest) && forall k <- latest :: JsonKey(k, latest[k])
    ensures View(r, w.home).Err? ==> View(r, w'.home) == View(r, w.home)
  {
    if View(r, w.home).Ok? {
      ViewOfWritten(r, reg, Merged(w, id, View(r, w.home).value), w.home, w'.home);
      ViewIsSettled(r, w.home);
    }
  }

  /** A value that a load keeps where it stands: JSON, and of the type that the five checked fields, the version,
      `remote` and the filled sections ask for. */
  predicate Keeps(r: Rules, p: Path, t: Tree)
    requires p != []
  {
    && Json(t)
    && (p[0] == Ascii("version") ==> p == [Ascii("version")] && t == Num(Ascii("1")))
    && (p == [Ascii("remote")] ==> t.Obj?)
    && !(|p| == 1 && IsFilledSection(p[0]))
    && (|p| >= 2 ==>
         && (p[..2] == [Ascii("session"), Ascii("priority")] ==> |p| == 2 && t.Num?)
         && (p[..2] == [Ascii("session"), Ascii("color")] ==> |p| == 2 && t.Str? && r.parseColor(t.s) == Some(t.s))
         && (p[..2] == [Ascii("terminal"), Ascii("detachPrefix")] ==> |p| == 2 && t.Num? && r.isByte(t.token))
         && (p[..2] == [Ascii("attention"), Ascii("idleSeconds")] ==> |p| == 2 && t.Num?)
         && (p[..2] == [Ascii("hotKeys"), Ascii("focusTopSession")] ==> |p| == 2 && t.Str?))
  }

  lemma LoadKeeps(r: Rules, value: Config, p: Path)
    requires RulesOk(r) && p != [] && Get(Obj(value), p).Some? && Keeps(r, p, Get(Obj(value), p).value)
    ensures Get(Obj(Normalize(r, StoredConfig(value))), p) == Get(Obj(value), p)
  {
    hide Ascii, RulesOk, Normalize;
    var m, t := StoredConfig(value), Get(Obj(value), p).value;
    NamesOfKeys();
    NamesOfFields();
    NamesOfValues();
    GetStored(value, p);
    StoredOfJson(t);
    if |p| == 1 {
      assert p == [p[0]];
      GetKey(r, m, p[0]);
    } else if IsSection(p[0]) {
      FieldKept(r, m, p, t);
    } else {
      assert p != [Ascii("version")];
      GetOther(r, m, p);
    }
  }

  /** Field f of section k holds a value of the type asked for there. */
  predicate TypeFits(r: Rules, k: Text, f: Text, t: Tree) {
    && (k == SESSION && f == PRIORITY ==> t.Num?)
    && (k == SESSION && f == COLOR ==> t.Str? && r.parseColor(t.s) == Some(t.s))
    && (k == TERMINAL && f == DETACH_PREFIX ==> t.Num? && r.isByte(t.token))
    && (k == ATTENTION && f == IDLE_SECONDS ==> t.Num?)
    && (k == HOT_KEYS && f == FOCUS_TOP_SESSION ==> t.Str?)
  }

  lemma FieldNormFits(r: Rules, k: Text, f: Text, t: Tree)
    requires TypeFits(r, k, f, t)
    ensures FieldNorm(r, k, f, Some(t)) == Some(t)
  {
  }

  lemma KeepsFits(r: Rules, p: Path, t: Tree, above: Tree)
    requires |p| >= 2 && Keeps(r, p, t) && (|p| == 2 ==> above == t)
    ensures TypeFits(r, p[0], p[1], above)
  {
    hide Ascii;
    NamesOfKeys();
    NamesOfFields();
    assert p[..2] == [p[0], p[1]];
    assert |p| == 2 ==> p[..2] == p;
  }

  lemma FieldKept(r: Rules, m: Config, p: Path, t: Tree)
    requires |p| >= 2 && IsSection(p[0]) && Get(Obj(m), p) == Some(t) && Keeps(r, p, t)
    ensures Get(Obj(Normalize(r, m)), p) == Some(t)
  {
    hide Ascii, Normalize, Keeps, TypeFits, FieldNorm, IsSection;
    GetField(r, m, p);
    SplitGet(Obj(m), p, 2);
    if |p| == 2 { assert p[..2] == p; }
    var above := Get(Obj(m), p[..2]).value;
    KeepsFits(r, p, t, above);
    FieldNormFits(r, p[0], p[1], above);
  }

  /** A save in a home that has a configuration file: whatever reads the home afterwards finds the owner's
      value at every path the owner changed, and the old value at every path it did not, except below a
      section that the owner added, removed or replaced whole. What the owner put at a changed path is read back
      as it is, if a load keeps it there. */
  lemma SavePath(r: Rules, reg: JR.Registry, id: nat, w: World, w': World, p: Path)
    requires RulesOk(r) && RT.OneLine(reg) && SaveStep(r, reg, id, w, w')
    requires id in w.golden && Existing(w.home).Some? && View(r, w'.home).Ok? && p != []
    ensures View(r, w.home).Ok?
    ensures
      var golden, value := w.golden[id], w.values[id];
      var before, after := Obj(View(r, w.home).value), Obj(View(r, w'.home).value);
      var own := Obj(Normalize(r, StoredConfig(value)));
      && (Changed(golden, value, p) ==> Get(after, p) == Get(own, p))
      && (Get(Obj(golden), p) == Get(Obj(value), p) ==>
            Get(after, p) == if Aligned(golden, value, p) then Get(before, p) else Get(own, p))
      && (Changed(golden, value, p) && Get(Obj(value), p).Some? && Keeps(r, p, Get(Obj(value), p).value) ==>
            Get(after, p) == Get(Obj(value), p))
  {
    hide Keeps;
    ViewAfterSave(r, reg, id, w, w');
    SavedPath(r, View(r, w.home).value, w.golden[id], w.values[id], p);
    if Get(Obj(w.values[id]), p).Some? && Keeps(r, p, Get(Obj(w.values[id]), p).value) { LoadKeeps(r, w.values[id], p); }
  }

  /** A save by an owner who changed nothing is invisible: normalization adds no change of its own. */
  lemma IdleSaveIsInvisible(r: Rules, reg: JR.Registry, id: nat, w: World, w': World)
    requires RulesOk(r) && RT.OneLine(reg) && SaveStep(r, reg, id, w, w')
    requires id in w.golden && w.golden[id] == w.values[id] && Existing(w.home).Some?
    ensures View(r, w'.home) == View(r, w.home)
  {
    ViewAfterSave(r, reg, id, w, w');
    if View(r, w.home).Ok? {
      ApplyDiff(w.golden[id], w.values[id]);
      ApplyNothing(View(r, w.home).value);
    }
  }

  /** The first load of a home without a configuration file leaves one that every reader loads as the
      normalized defaults. */
  lemma FirstLoadWritesDefaults(r: Rules, reg: JR.Registry, id: nat, w: World, w': World)
    requires RulesOk(r) && RT.OneLine(reg) && LoadStep(r, reg, id, w, w') && Existing(w.home).None?
    ensures Existing(w'.home).Some? && View(r, w'.home) == Ok(Normalize(r, r.defaults))
    ensures id in w'.golden && w'.golden[id] == r.defaults
  {
    ViewOfWritten(r, reg, r.defaults, w.home, w'.home);
    StoredOfJson(Obj(r.defaults));
  }

  /** A save whose owner left the version alone leaves a readable file. */
  lemma SaveStaysReadable(r: Rules, reg: JR.Registry, id: nat, w: World, w': World)
    requires RulesOk(r) && RT.OneLine(reg) && SaveStep(r, reg, id, w, w')
    requires id in w.golden && Existing(w.home).Some? && View(r, w.home).Ok?
    requires Lookup(w.golden[id], VERSION) == Lookup(w.values[id], VERSION)
    ensures View(r, w'.home).Ok?
  {
    var latest := View(r, w.home).value;
    var merged := Merged(w, id, latest);
    ViewAfterSave(r, reg, id, w, w');
    DiffAt(w.golden[id], w.values[id], VERSION);
    assert Lookup(w.golden[id], VERSION).Some? <==> VERSION in w.golden[id];
    ApplyAt(latest, DiffFields(w.golden[id], w.values[id]), VERSION);
    StoredAt(merged, VERSION);
    StoredAt(latest, VERSION);
    VersionByLookup(r, StoredConfig(latest), StoredConfig(merged));
  }

  lemma VersionByLookup(r: Rules, a: Config, b: Config)
    requires Lookup(a, VERSION) == Lookup(b, VERSION)
    ensures VersionOk(r, a) <==> VersionOk(r, b)
  {
  }

  // ---------------------------------------------------------------- runs

  ghost predicate IsRun(r: Rules, reg: JR.Registry, events: seq<Event>, worlds: seq<World>) {
    && |worlds| == |events| + 1
    && forall i :: 0 <= i < |events| ==> Step(r, reg, events[i], worlds[i], worlds[i + 1])
  }

  /** If the event is a save, its owner did not change the path, nor a whole section above it. */
  predicate Spares(e: Event, w: World, p: Path)
    requires p != []
  {
    e.SaveConfig? && e.id in w.values ==>
      && e.id in w.golden
      && Get(Obj(w.golden[e.id]), p) == Get(Obj(w.values[e.id]), p)
      && Aligned(w.golden[e.id], w.values[e.id], p)
  }

  lemma StepSpares(r: Rules, reg: JR.Registry, e: Event, w: World, w': World, p: Path)
    requires RulesOk(r) && RT.OneLine(reg) && p != [] && Step(r, reg, e, w, w') && Spares(e, w, p)
    requires Existing(w.home).Some?
    ensures Existing(w'.home).Some?
    ensures View(r, w'.home).Ok? ==>
              View(r, w.home).Ok? && Get(Obj(View(r, w'.home).value), p) == Get(Obj(View(r, w.home).value), p)
  {
    if e.SaveConfig? && View(r, w'.home).Ok? {
      SavePath(r, reg, e.id, w, w', p);
    }
  }

  /** Over any run in which every save spares the path, readers keep finding the same value there. */
  lemma {:induction false} RunKeepsPath(r: Rules, reg: JR.Registry, events: seq<Event>, worlds: seq<World>, p: Path)
    requires RulesOk(r) && RT.OneLine(reg) && p != [] && IsRun(r, reg, events, worlds)
    requires forall i :: 0 <= i < |events| ==> Spares(events[i], worlds[i], p)
    requires Existing(worlds[0].home).Some? && View(r, worlds[|events|].home).Ok?
    ensures View(r, worlds[0].home).Ok?
    ensures Get(Obj(View(r, worlds[|events|].home).value), p) == Get(Obj(View(r, worlds[0].home).value), p)
    decreases |events|
  {
    if events != [] {
      StepSpares(r, reg, events[0], worlds[0], worlds[1], p);
      var more := worlds[1..];
      assert more[|events| - 1] == worlds[|events|];
      forall i | 0 <= i < |events| - 1
        ensures Step(r, reg, events[1..][i], more[i], more[i + 1]) && Spares(events[1..][i], more[i], p)
      {
        assert events[1..][i] == events[i + 1] && more[i] == worlds[i + 1] && more[i + 1] == worlds[i + 2];
        assert Step(r, reg, events[i + 1], worlds[i + 1], worlds[i + 2]);
      }
      RunKeepsPath(r, reg, events[1..], more, p);
    }
  }

  /** Writers of different fields never undo each other: a value one writer changed and saved is what every
      reader finds, for as long as the later saves spare that path. */
  lemma SavedChangeSurvives(r: Rules, reg: JR.Registry, events: seq<Event>, worlds: seq<World>, p: Path)
    requires RulesOk(r) && RT.OneLine(reg) && p != [] && IsRun(r, reg, events, worlds)
    requires events != [] && events[0].SaveConfig?
    requires events[0].id in worlds[0].golden && events[0].id in worlds[0].values
    requires Changed(worlds[0].golden[events[0].id], worlds[0].values[events[0].id], p)
    requires forall i :: 1 <= i < |events| ==> Spares(events[i], worlds[i], p)
    requires Existing(worlds[0].home).Some? && View(r, worlds[|events|].home).Ok?
    ensures Get(Obj(View(r, worlds[|events|].home).value), p)
         == Get(Obj(Normalize(r, StoredConfig(worlds[0].values[events[0].id]))), p)
    ensures
      var saved := Get(Obj(worlds[0].values[events[0].id]), p);
      saved.Some? && Keeps(r, p, saved.value) ==> Get(Obj(View(r, worlds[|events|].home).value), p) == saved
  {
    hide Keeps;
    var more := worlds[1..];
    assert more[|events| - 1] == worlds[|events|];
    forall i | 0 <= i < |events| - 1
      ensures Step(r, reg, events[1..][i], more[i], more[i + 1]) && Spares(events[1..][i], more[i], p)
    {
      assert events[1..][i] == events[i + 1] && more[i] == worlds[i + 1] && more[i + 1] == worlds[i + 2];
      assert Step(r, reg, events[i + 1], worlds[i + 1], worlds[i + 2]);
    }
    assert Step(r, reg, events[0], worlds[0], worlds[1]);
    assert Existing(worlds[1].home).Some?;
    RunKeepsPath(r, reg, events[1..], more, p);
    SavePath(r, reg, events[0].id, worlds[0], worlds[1], p);
  }

  /** The event is a load or a save of this object that went through. */
  predicate Syncs(r: Rules, e: Event, w: World, id: nat) {
    e.id == id && View(r, w.home).Ok? && (e.LoadConfig? || (e.SaveConfig? && id in w.golden))
  }

  /** Event i is the last such event among the first n. */
  ghost predicate LastSync(r: Rules, events: seq<Event>, worlds: seq<World>, n: nat, id: nat, i: nat)
    requires n <= |events| <= |worlds|
  {
    i < n && Syncs(r, events[i], worlds[i], id) && forall j :: i < j < n ==> !Syncs(r, events[j], worlds[j], id)
  }

  lemma StepSyncs(r: Rules, reg: JR.Registry, e: Event, w: World, w': World, id: nat)
    requires Step(r, reg, e, w, w') && id in w'.golden
    ensures Syncs(r, e, w, id) ==> id in w'.values && w'.golden[id] == w'.values[id]
    ensures !Syncs(r, e, w, id) ==> id in w.golden && w'.golden[id] == w.golden[id]
  {
  }

  /** What an owner is taken to have changed is measured from its own last load or save. */
  lemma {:induction false} SnapshotIsLastSync(
      r: Rules, reg: JR.Registry, events: seq<Event>, worlds: seq<World>, n: nat, id: nat) returns (i: nat)
    requires IsRun(r, reg, events, worlds) && n <= |events|
    requires id !in worlds[0].golden && id in worlds[n].golden
    ensures LastSync(r, events, worlds, n, id, i)
    ensures id in worlds[i + 1].values && worlds[n].golden[id] == worlds[i + 1].values[id]
    decreases n
  {
    StepSyncs(r, reg, events[n - 1], worlds[n - 1], worlds[n], id);
    if Syncs(r, events[n - 1], worlds[n - 1], id) {
      i := n - 1;
    } else {
      i := SnapshotIsLastSync(r, reg, events, worlds, n - 1, id);
    }
  }

  // ---------------------------------------------------------------- the legacy file

  /** The text of the legacy file is still there: in place, or in the backup with a canonical file beside it. */
  predicate LegacyKept(h: Home, t: Text) {
    (h.canonical.None? && h.legacy == Some(t)) || (h.canonical.Some? && h.legacy == None && h.backup == Some(t))
  }

  lemma StepKeepsLegacy(r: Rules, reg: JR.Registry, e: Event, w: World, w': World, t: Text)
    requires Step(r, reg, e, w, w') && LegacyKept(w.home, t)
    ensures LegacyKept(w'.home, t)
  {
  }

  /** No run of loads and saves loses the text of a legacy file: the first save moves it to the backup, and nothing
      touches it from then on. */
  lemma {:induction false} LegacyIsKept(r: Rules, reg: JR.Registry, events: seq<Event>, worlds: seq<World>, i: nat, t: Text)
    requires IsRun(r, reg, events, worlds) && i < |worlds|
    requires worlds[0].home.canonical.None? && worlds[0].home.legacy == Some(t)
    ensures
      var h := worlds[i].home;
      if h.canonical.None? then h.legacy == Some(t) else h.legacy == None && h.backup == Some(t)
    decreases i
  {
    LegacyKeptAlong(r, reg, events, worlds, i, t);
  }

  lemma {:induction false} LegacyKeptAlong(r: Rules, reg: JR.Registry, events: seq<Event>, worlds: seq<World>, i: nat, t: Text)
    requires IsRun(r, reg, events, worlds) && i < |worlds| && LegacyKept(worlds[0].home, t)
    ensures LegacyKept(worlds[i].home, t)
    decreases i
  {
    hide Step;
    if i > 0 {
      LegacyKeptAlong(r, reg, events, worlds, i - 1, t);
      assert Step(r, reg, events[i - 1], worlds[i - 1], worlds[i - 1 + 1]);
      StepKeepsLegacy(r, reg, events[i - 1], worlds[i - 1], worlds[i], t);
    }
  }

  // ---------------------------------------------------------------- where it fails

  /** The exception is real. No load fills in `remote`, so two writers that each set a field of it where
      there is none both replace the whole section: the second save removes the field the first one wrote. */
  lemma WritersOfAbsentSectionUndoEachOther(
      r: Rules, reg: JR.Registry, a: nat, b: nat, f: Text, g: Text, x: Tree, y: Tree, w0: World, w1: World, w2: World)
    requires RulesOk(r) && RT.OneLine(reg) && a != b && f != g && Json(x) && Json(y)
    requires Existing(w0.home).Some? && View(r, w0.home).Ok?
    requires
      var loaded := View(r, w0.home).value;
      && Lookup(loaded, REMOTE) == Some(Undefined)
      && a in w0.golden && b in w0.golden && w0.golden[a] == loaded && w0.golden[b] == loaded
      && a in w0.values && w0.values[a] == loaded[REMOTE := Obj(map[f := x])]
      && b in w0.values && w0.values[b] == loaded[REMOTE := Obj(map[g := y])]
    requires SaveStep(r, reg, a, w0, w1) && SaveStep(r, reg, b, w1, w2)
    ensures View(r, w1.home).Ok? && Get(Obj(View(r, w1.home).value), [REMOTE, f]) == Some(x)
    ensures View(r, w2.home).Ok? && Get(Obj(View(r, w2.home).value), [REMOTE, g]) == Some(y)
    ensures Get(Obj(View(r, w2.home).value), [REMOTE, f]) == None
  {
    var loaded := View(r, w0.home).value;
    AbsentSectionReplaced(r, reg, a, f, f, x, loaded, w0, w1);
    AbsentSectionReplaced(r, reg, b, g, g, y, loaded, w1, w2);
    AbsentSectionReplaced(r, reg, b, g, f, y, loaded, w1, w2);
  }

  /** An input: a file that holds an empty object. Two writers load it, each sets a field of `remote`, and both
      save; then the first one's field is gone. */
  method TwoWritersOfEmptyFile(r: Rules, reg: JR.Registry, f: Text, g: Text, x: Tree, y: Tree)
      returns (between: Home, last: Home)
    requires RulesOk(r) && RT.OneLine(reg) && f != g && Json(x) && Json(y)
    ensures View(r, between).Ok? && Get(Obj(View(r, between).value), [REMOTE, f]) == Some(x)
    ensures View(r, last).Ok? && Get(Obj(View(r, last).value), [REMOTE, g]) == Some(y)
    ensures Get(Obj(View(r, last).value), [REMOTE, f]) == None
  {
    hide RulesOk, RT.OneLine, Json, Get, View, Wrote, JR.RenderConfig, Merged;
    var raw := JR.RenderConfig(reg, [], true);
    var store := new Store(r, reg, Home(Some(raw), None, None));
    EmptyFileLoads(r, reg, raw);
    var one := store.LoadConfig(0);
    var two := store.LoadConfig(1);
    var loaded := one.value;
    store.values := store.values[0 := loaded[REMOTE := Obj(map[f := x])]][1 := loaded[REMOTE := Obj(map[g := y])]];
    ghost var w0 := store.State();
    var saved := store.SaveConfig(0);
    ghost var w1 := store.State();
    between := store.home;
    saved := store.SaveConfig(1);
    ghost var w2 := store.State();
    last := store.home;
    WritersOfAbsentSectionUndoEachOther(r, reg, 0, 1, f, g, x, y, w0, w1, w2);
  }

  lemma EmptyFileLoads(r: Rules, reg: JR.Registry, raw: Text)
    requires RulesOk(r) && RT.OneLine(reg) && raw == JR.RenderConfig(reg, [], true)
    ensures
      var home := Home(Some(raw), None, None);
      View(r, home).Ok? && Lookup(View(r, home).value, REMOTE) == Some(Undefined)
  {
    var none: seq<JV.Field> := [];
    assert JV.WellFormed(JV.Obj(none)) && JV.ToTree(JV.Obj(none)) == Obj(map[]);
    assert Written(reg, map[], raw);
    ReadWritten(reg, map[], raw);
    NormalizeAt(r, map[], REMOTE);
    NotSection();
  }

  lemma AbsentSectionReplaced(r: Rules, reg: JR.Registry, id: nat, f: Text, q: Text, x: Tree, loaded: Config, w: World, w': World)
    requires RulesOk(r) && RT.OneLine(reg) && Json(x)
    requires Existing(w.home).Some? && View(r, w.home).Ok? && SaveStep(r, reg, id, w, w')
    requires Lookup(loaded, REMOTE) == Some(Undefined) && id in w.golden && w.golden[id] == loaded
    requires w.values[id] == loaded[REMOTE := Obj(map[f := x])]
    ensures View(r, w'.home).Ok? && Existing(w'.home).Some?
    ensures Get(Obj(View(r, w'.home).value), [REMOTE, q]) == if q == f then Some(x) else None
  {
    NotSection();
    SaveStaysReadable(r, reg, id, w, w');
    SavePath(r, reg, id, w, w', [REMOTE, q]);
    AddedSection(r, loaded, f, q, x);
  }

  /** How the owner's own configuration reads once it has set one field of the absent section. */
  lemma AddedSection(r: Rules, loaded: Config, f: Text, q: Text, x: Tree)
    requires RulesOk(r) && Json(x) && Lookup(loaded, REMOTE) == Some(Undefined)
    ensures
      var value, p := loaded[REMOTE := Obj(map[f := x])], [REMOTE, q];
      && (if q == f then Changed(loaded, value, p) else Get(Obj(loaded), p) == Get(Obj(value), p) && !Aligned(loaded, value, p))
      && Get(Obj(Normalize(r, StoredConfig(value))), p) == if q == f then Some(x) else None
  {
    var value, p := loaded[REMOTE := Obj(map[f := x])], [REMOTE, q];
    GetTwo(loaded, p);
    GetTwo(value, p);
    assert p[..2] == p;
    GetStored(value, p);
    NotSection();
    GetOther(r, StoredConfig(value), p);
    StoredOfJson(x);
  }

  lemma NotSection()
    ensures !IsSection(REMOTE) && REMOTE != VERSION
  {
    FixedKeysDiffer();
  }
}
