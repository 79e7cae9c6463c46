/** The recursive delta between two configuration objects and its application to a third. */
module ConfigMerge {
  import opened Base
  import opened Text
  import opened ConfigTree

  datatype Delta =
    | Delete
    | Replace(value: Tree)
    | Node(entries: map<Text, Delta>)

  type Entries = map<Text, Delta>

  // ---------------------------------------------------------------- what the two operations compute

  /** The difference at one key of two objects. */
  function DiffKey(golden: map<Text, Tree>, current: map<Text, Tree>, k: Text): Option<Delta>
    requires k in golden || k in current
    decreases Obj(golden), 1
  {
    if k in golden && k !in current then Some(Delete)
    else if k !in golden then Some(Replace(current[k]))
    else Diff(golden[k], current[k])
  }

  function DiffFields(golden: map<Text, Tree>, current: map<Text, Tree>): Entries
    decreases Obj(golden), 2
  {
    map k | k in golden.Keys + current.Keys && DiffKey(golden, current, k).Some? :: DiffKey(golden, current, k).value
  }

  function Diff(golden: Tree, current: Tree): Option<Delta>
    decreases golden, 3
  {
    if golden == current then None
    else if golden.Obj? && current.Obj? then
      var entries := DiffFields(golden.fields, current.fields);
      if entries == map[] then None else Some(Node(entries))
    else Some(Replace(current))
  }

  /** What a key holds after its entry is applied. */
  function ApplyKey(latest: map<Text, Tree>, k: Text, d: Delta): Tree
    requires !d.Delete?
    decreases d, 2
  {
    match d
    case Replace(v) => v
    case Node(entries) => Obj(Apply(Section(latest, k), entries))
  }

  function Apply(latest: map<Text, Tree>, entries: Entries): map<Text, Tree>
    decreases Node(entries), 1
  {
    map k | k in latest.Keys + entries.Keys && !(k in entries && entries[k].Delete?) ::
      if k in entries then ApplyKey(latest, k, entries[k]) else latest[k]
  }

  // ---------------------------------------------------------------- the loops that compute them

  method DiffConfig(golden: Tree, current: Tree) returns (d: Option<Delta>)
    ensures d == Diff(golden, current)
    decreases golden, 3
  {
    if golden == current { return None; }
    if golden.Obj? && current.Obj? {
      d := DiffObjectConfig(golden.fields, current.fields);
    } else {
      d := Some(Replace(current));
    }
  }

  method DiffObjectConfig(golden: map<Text, Tree>, current: map<Text, Tree>) returns (d: Option<Delta>)
    ensures d == if DiffFields(golden, current) == map[] then None else Some(Node(DiffFields(golden, current)))
    decreases Obj(golden), 2
  {
    var entries: Entries := map[];
    var keys := golden.Keys + current.Keys;
    var rest := keys;
    while rest != {}
      invariant rest <= keys
      invariant forall k :: k in entries <==> k in keys - rest && DiffKey(golden, current, k).Some?
      invariant forall k <- entries :: entries[k] == DiffKey(golden, current, k).value
      decreases rest
    {
      var key :| key in rest;
      rest := rest - {key};
      if key in golden && key !in current {
        entries := entries[key := Delete];
      } else if key !in golden && key in current {
        entries := entries[key := Replace(current[key])];
      } else {
        var child := DiffConfig(golden[key], current[key]);
        if child.Some? { entries := entries[key := child.value]; }
      }
    }
    EntriesAreDiff(golden, current, entries);
    d := if |entries| > 0 then Some(Node(entries)) else None;
  }

  lemma EntriesAreDiff(golden: map<Text, Tree>, current: map<Text, Tree>, entries: Entries)
    requires forall k :: k in entries <==> k in golden.Keys + current.Keys && DiffKey(golden, current, k).Some?
    requires forall k <- entries :: entries[k] == DiffKey(golden, current, k).value
    ensures entries == DiffFields(golden, current)
  {
  }

  method ApplyObjectDelta(latest: map<Text, Tree>, entries: Entries) returns (next: map<Text, Tree>)
    ensures next == Apply(latest, entries)
    decreases Node(entries)
  {
    next := latest;
    var rest := entries.Keys;
    while rest != {}
      invariant rest <= entries.Keys
      invariant forall k :: k in next <==>
                  if k in entries.Keys - rest then !entries[k].Delete? else k in latest
      invariant forall k <- next ::
                  next[k] == if k in entries.Keys - rest then ApplyKey(latest, k, entries[k]) else latest[k]
      decreases rest
    {
      var key :| key in rest;
      rest := rest - {key};
      match entries[key] {
        case Delete => next := next - {key};
        case Replace(v) => next := next[key := v];
        case Node(child) =>
          var base := if key in next && next[key].Obj? then next[key].fields else map[];
          var merged := ApplyObjectDelta(base, child);
          next := next[key := Obj(merged)];
      }
    }
  }

  /** applyConfigDelta: only an object delta may be applied at the root. */
  method ApplyConfigDelta(latest: map<Text, Tree>, d: Delta) returns (r: Result<map<Text, Tree>, string>)
    ensures d.Node? ==> r == Ok(Apply(latest, d.entries))
    ensures !d.Node? ==> r.Err?
  {
    if !d.Node? { return Err("applyConfigDelta requires an object delta at the root"); }
    var next := ApplyObjectDelta(latest, d.entries);
    r := Ok(next);
  }

  // ---------------------------------------------------------------- algebra

  /** The diff at one key, case by case. */
  lemma DiffAt(golden: map<Text, Tree>, current: map<Text, Tree>, k: Text)
    ensures
      var d := DiffFields(golden, current);
      if k in golden && k in current then
        if golden[k] == current[k] then k !in d
        else if golden[k].Obj? && current[k].Obj? then
          var sub := DiffFields(golden[k].fields, current[k].fields);
          if sub == map[] then k !in d else k in d && d[k] == Node(sub)
        else k in d && d[k] == Replace(current[k])
      else if k in golden then k in d && d[k] == Delete
      else if k in current then k in d && d[k] == Replace(current[k])
      else k !in d
  {
    if k in golden && k in current {
      assert DiffKey(golden, current, k) == Diff(golden[k], current[k]);
    }
  }

  /** The result of applying a delta at one key, case by case. */
  lemma ApplyAt(latest: map<Text, Tree>, entries: Entries, k: Text)
    ensures
      var next := Apply(latest, entries);
      if k !in entries then (k in next <==> k in latest) && (k in next ==> next[k] == latest[k])
      else match entries[k]
           case Delete => k !in next
           case Replace(v) => k in next && next[k] == v
           case Node(child) => k in next && next[k] == Obj(Apply(Section(latest, k), child))
  {
  }

  /** There is no diff exactly when the two objects are equal, and applying it to golden gives current. */
  lemma {:induction false} ApplyDiff(golden: map<Text, Tree>, current: map<Text, Tree>)
    ensures DiffFields(golden, current) == map[] <==> golden == current
    ensures Apply(golden, DiffFields(golden, current)) == current
    decreases Obj(golden)
  {
    var entries := DiffFields(golden, current);
    var applied := Apply(golden, entries);
    forall k | k in golden.Keys + current.Keys
      ensures k in current <==> k in applied
      ensures k in current ==> applied[k] == current[k]
      ensures k in entries || (k in golden && k in current && golden[k] == current[k])
      ensures k in golden && k in current && golden[k] == current[k] ==> k !in entries
    {
      DiffAt(golden, current, k);
      ApplyAt(golden, entries, k);
      if k in golden && k in current && golden[k].Obj? && current[k].Obj? {
        ApplyDiff(golden[k].fields, current[k].fields);
      }
    }
    assert applied.Keys == current.Keys;
    if golden == current {
      assert entries.Keys == {};
    }
    if entries == map[] {
      assert golden.Keys == current.Keys;
    }
  }

  lemma {:induction false} DiffOfObjects(golden: map<Text, Tree>, current: map<Text, Tree>)
    ensures Diff(Obj(golden), Obj(current)).None? <==> golden == current
    ensures Diff(Obj(golden), Obj(current)).Some? ==>
              Diff(Obj(golden), Obj(current)) == Some(Node(DiffFields(golden, current)))
  {
    ApplyDiff(golden, current);
  }

  lemma {:induction false} ApplyIdempotent(latest: map<Text, Tree>, entries: Entries)
    ensures Apply(Apply(latest, entries), entries) == Apply(latest, entries)
    decreases Node(entries)
  {
    var once := Apply(latest, entries);
    var twice := Apply(once, entries);
    forall k
      ensures k in twice <==> k in once
      ensures k in twice ==> twice[k] == once[k]
    {
      ApplyAt(latest, entries, k);
      ApplyAt(once, entries, k);
      if k in entries && entries[k].Node? {
        ApplyIdempotent(Section(latest, k), entries[k].entries);
      }
    }
  }

  /** Two deltas that share only object nodes. */
  predicate Disjoint(a: Entries, b: Entries)
    decreases Node(a)
  {
    forall k | k in a.Keys * b.Keys ::
      a[k].Node? && b[k].Node? && Disjoint(a[k].entries, b[k].entries)
  }

  /** Such deltas commute on any base, including one where a shared section is missing or is no object. */
  lemma {:induction false} DisjointCommute(latest: map<Text, Tree>, a: Entries, b: Entries)
    requires Disjoint(a, b)
    ensures Apply(Apply(latest, a), b) == Apply(Apply(latest, b), a)
    decreases Node(a)
  {
    hide Apply;
    var ab, ba := Apply(Apply(latest, a), b), Apply(Apply(latest, b), a);
    forall k
      ensures k in ab <==> k in ba
      ensures k in ab ==> ab[k] == ba[k]
    {
      ApplyAt(latest, a, k);
      ApplyAt(latest, b, k);
      ApplyAt(Apply(latest, a), b, k);
      ApplyAt(Apply(latest, b), a, k);
      if k in a.Keys * b.Keys {
        DisjointCommute(Section(latest, k), a[k].entries, b[k].entries);
      }
    }
  }

  // ---------------------------------------------------------------- paths

  /** The delta says something about this path, or about something above or below it. */
  predicate Touches(entries: Entries, p: Path)
    requires p != []
    decreases |p|
  {
    p[0] in entries &&
    (entries[p[0]].Node? ==> |p| == 1 || Touches(entries[p[0]].entries, p[1..]))
  }

  /** The delta deletes or replaces the value at this path or at one above it. */
  predicate Settles(entries: Entries, p: Path)
    requires p != []
    decreases |p|
  {
    p[0] in entries &&
    (entries[p[0]].Node? ==> |p| > 1 && Settles(entries[p[0]].entries, p[1..]))
  }

  lemma {:induction false} UntouchedPathKept(latest: map<Text, Tree>, entries: Entries, p: Path)
    requires p != [] && !Touches(entries, p)
    ensures Get(Obj(Apply(latest, entries)), p) == Get(Obj(latest), p)
    decreases |p|
  {
    ApplyAt(latest, entries, p[0]);
    if p[0] in entries {
      UntouchedPathKept(Section(latest, p[0]), entries[p[0]].entries, p[1..]);
    }
  }

  /** What a delta settles does not depend on what it is applied to. */
  lemma {:induction false} SettledPathFixed(a: map<Text, Tree>, b: map<Text, Tree>, entries: Entries, p: Path)
    requires p != [] && Settles(entries, p)
    ensures Get(Obj(Apply(a, entries)), p) == Get(Obj(Apply(b, entries)), p)
    decreases |p|
  {
    ApplyAt(a, entries, p[0]);
    ApplyAt(b, entries, p[0]);
    if entries[p[0]].Node? {
      SettledPathFixed(Section(a, p[0]), Section(b, p[0]), entries[p[0]].entries, p[1..]);
    }
  }

  /** Above the path, the two objects differ only inside sections that are objects in both. */
  predicate Aligned(golden: map<Text, Tree>, current: map<Text, Tree>, p: Path)
    requires p != []
    decreases |p|
  {
    var k := p[0];
    || |p| == 1
    || (k !in golden && k !in current)
    || (&& k in golden && k in current
        && (golden[k] == current[k]
            || (golden[k].Obj? && current[k].Obj? && Aligned(golden[k].fields, current[k].fields, p[1..]))))
  }

  /** A path whose value is the same in both is left alone by the diff exactly when the objects are aligned
      above it: a section that one of them lacks is replaced whole, and takes such paths with it. */
  lemma {:induction false} UnchangedIsUntouchedIffAligned(golden: map<Text, Tree>, current: map<Text, Tree>, p: Path)
    requires p != [] && Get(Obj(golden), p) == Get(Obj(current), p)
    ensures Touches(DiffFields(golden, current), p) <==> !Aligned(golden, current, p)
    decreases |p|
  {
    var k := p[0];
    DiffAt(golden, current, k);
    if k in golden && k in current && golden[k] != current[k] && golden[k].Obj? && current[k].Obj? {
      ApplyDiff(golden[k].fields, current[k].fields);
      if |p| > 1 {
        UnchangedIsUntouchedIffAligned(golden[k].fields, current[k].fields, p[1..]);
      }
    }
  }

  /** A path that differs, and is not an object in both, is settled by the diff: after applying it to
      anything, the path holds what current holds. */
  lemma {:induction false} ChangedPathWins(golden: map<Text, Tree>, current: map<Text, Tree>, latest: map<Text, Tree>, p: Path)
    requires p != [] && Get(Obj(golden), p) != Get(Obj(current), p)
    requires !(Get(Obj(golden), p).Some? && Get(Obj(golden), p).value.Obj?
               && Get(Obj(current), p).Some? && Get(Obj(current), p).value.Obj?)
    ensures Settles(DiffFields(golden, current), p)
    ensures Get(Obj(Apply(latest, DiffFields(golden, current))), p) == Get(Obj(current), p)
  {
    ChangedPathSettled(golden, current, p);
    SettledPathFixed(latest, golden, DiffFields(golden, current), p);
    ApplyDiff(golden, current);
  }

  lemma {:induction false} ChangedPathSettled(golden: map<Text, Tree>, current: map<Text, Tree>, p: Path)
    requires p != [] && Get(Obj(golden), p) != Get(Obj(current), p)
    requires !(Get(Obj(golden), p).Some? && Get(Obj(golden), p).value.Obj?
               && Get(Obj(current), p).Some? && Get(Obj(current), p).value.Obj?)
    ensures Settles(DiffFields(golden, current), p)
    decreases |p|
  {
    var k := p[0];
    DiffAt(golden, current, k);
    if k in golden && k in current && golden[k] != current[k] && golden[k].Obj? && current[k].Obj? {
      ApplyDiff(golden[k].fields, current[k].fields);
      ChangedPathSettled(golden[k].fields, current[k].fields, p[1..]);
    }
  }
}
