/** Configuration files as text: what a written tree reads back as. */
module ConfigText {
  import opened Base
  import opened Text
  import opened JsonValue
  import opened JsonParse
  import opened JsonRoundTrip
  import opened JsoncStrip
  import opened JsoncRender
  import opened JsoncRoundTrip
  import opened JsoncTheorems
  import G = JsonGrammar
  import CT = ConfigTree
  import opened ConfigFiles

  // ---------------------------------------------------------------- ordered values and their trees

  ghost predicate CleansField(f: Field) { ToTree(Clean(f.value)) == Stored(ToTree(f.value)) }

  lemma CleanHasStored(fields: seq<Field>, k: Text)
    requires WellFormed(Obj(fields)) && forall f <- fields :: CleansField(f)
    requires k in StoredConfig(ToMap(fields, |fields|))
    ensures
      var clean := Clean(Obj(fields)).fields;
      k in ToMap(clean, |clean|) && ToMap(clean, |clean|)[k] == StoredConfig(ToMap(fields, |fields|))[k]
  {
    var d, clean := DefinedFields(fields), Clean(Obj(fields)).fields;
    DefinedKeysDistinct(fields);
    MapKey(fields, |fields|, k);
    var j :| 0 <= j < |fields| && fields[j].key == k;
    MapAt(fields, |fields|, j);
    assert fields[j] in d && CleansField(fields[j]);
    var i :| 0 <= i < |d| && d[i] == fields[j];
    MapAt(clean, |clean|, i);
  }

  lemma StoredHasClean(fields: seq<Field>, k: Text)
    requires WellFormed(Obj(fields))
    requires var clean := Clean(Obj(fields)).fields; k in ToMap(clean, |clean|)
    ensures k in StoredConfig(ToMap(fields, |fields|))
  {
    var d, clean := DefinedFields(fields), Clean(Obj(fields)).fields;
    MapKey(clean, |clean|, k);
    var i :| 0 <= i < |clean| && clean[i].key == k;
    assert d[i] in d;
    var j :| 0 <= j < |fields| && fields[j] == d[i];
    MapAt(fields, |fields|, j);
  }

  /** Cleaning an ordered value is storing its tree. */
  lemma {:induction false} CleanTree(v: Value)
    requires WellFormed(v)
    ensures ToTree(Clean(v)) == Stored(ToTree(v))
    decreases v
  {
    match v
    case Arr(items) =>
      forall i | 0 <= i < |items| ensures ToTree(Clean(v)).items[i] == Stored(ToTree(v)).items[i] {
        CleanTree(items[i]);
      }
      assert ToTree(Clean(v)).items == Stored(ToTree(v)).items;
    case Obj(fields) =>
      var clean := Clean(v).fields;
      forall f <- fields ensures CleansField(f) {
        var i :| 0 <= i < |fields| && fields[i] == f;
        CleanTree(fields[i].value);
      }
      var a, b := ToMap(clean, |clean|), StoredConfig(ToMap(fields, |fields|));
      forall k | k in b ensures k in a && a[k] == b[k] { CleanHasStored(fields, k); }
      forall k | k in a ensures k in b { StoredHasClean(fields, k); }
      assert a == b;
    case _ =>
  }

  // ---------------------------------------------------------------- what the parser gives

  lemma {:induction false} PutKeepsPure(fields: seq<Field>, k: Text, v: Value)
    requires Pure(Obj(fields)) && WellFormed(Obj(fields)) && Pure(v) && WellFormed(v)
    ensures Pure(Obj(Put(fields, k, v))) && WellFormed(Obj(Put(fields, k, v)))
    ensures forall f <- Put(fields, k, v) :: f.key == k || exists g <- fields :: g.key == f.key
    decreases |fields|
  {
    if fields != [] {
      var rest := fields[1..];
      assert Pure(Obj(rest)) && WellFormed(Obj(rest));
      if fields[0].key != k {
        PutKeepsPure(rest, k, v);
        var more := Put(rest, k, v);
        forall i | 0 <= i < |more| ensures more[i].key != fields[0].key {
          assert more[i] in more;
        }
        ConsKeepsPure(fields[0], more);
      } else {
        ConsKeepsPure(Field(k, v), rest);
      }
    }
  }

  lemma ConsKeepsPure(f: Field, rest: seq<Field>)
    requires Pure(Obj(rest)) && WellFormed(Obj(rest)) && Pure(f.value) && WellFormed(f.value)
    requires forall i :: 0 <= i < |rest| ==> rest[i].key != f.key
    ensures Pure(Obj([f] + rest)) && WellFormed(Obj([f] + rest))
  {
  }

  /** The parser only builds JSON values with distinct keys. */
  lemma {:induction false} ParsedIsPure(s: Text)
    ensures ParseValue(s).Some? ==> Pure(ParseValue(s).value.0) && WellFormed(ParseValue(s).value.0)
    decreases |s|, 0
  {
    if s != [] && s[0] == OPEN_BRACE {
      MembersArePure(SkipSpace(s[1..]), []);
    } else if s != [] && s[0] == OPEN_BRACKET {
      ItemsArePure(SkipSpace(s[1..]), []);
    }
  }

  lemma {:induction false} MembersArePure(s: Text, acc: seq<Field>)
    requires Pure(Obj(acc)) && WellFormed(Obj(acc))
    ensures ParseMembers(s, acc).Some? ==> Pure(ParseMembers(s, acc).value.0) && WellFormed(ParseMembers(s, acc).value.0)
    decreases |s|, 1
  {
    if StartsWith(s, QUOTE) && ParseString(s[1..]).Some? {
      var (k, s2) := ParseString(s[1..]).value;
      var s3 := SkipSpace(s2);
      if StartsWith(s3, COLON) {
        ParsedIsPure(SkipSpace(s3[1..]));
        if ParseValue(SkipSpace(s3[1..])).Some? {
          var (v, s4) := ParseValue(SkipSpace(s3[1..])).value;
          PutKeepsPure(acc, k, v);
          if StartsWith(SkipSpace(s4), COMMA) {
            MembersArePure(SkipSpace(SkipSpace(s4)[1..]), Put(acc, k, v));
          }
        }
      }
    }
  }

  lemma {:induction false} ItemsArePure(s: Text, acc: seq<Value>)
    requires Pure(Arr(acc)) && WellFormed(Arr(acc))
    ensures ParseItems(s, acc).Some? ==> Pure(ParseItems(s, acc).value.0) && WellFormed(ParseItems(s, acc).value.0)
    decreases |s|, 1
  {
    ParsedIsPure(s);
    if ParseValue(s).Some? {
      var (v, s4) := ParseValue(s).value;
      assert Pure(Arr(acc + [v])) && WellFormed(Arr(acc + [v]));
      if StartsWith(SkipSpace(s4), COMMA) {
        ItemsArePure(SkipSpace(SkipSpace(s4)[1..]), acc + [v]);
      }
    }
  }

  // ---------------------------------------------------------------- files

  /** The tree of a file. */
  function ReadText(raw: Text): Result<Config, ParseError> {
    match ParseJsonc(raw)
    case Err(e) => Err(e)
    case Ok(fields) => Ok(ToMap(fields, |fields|))
  }

  /** The text is a rendering of the tree, in some order of its keys. */
  ghost predicate Written(reg: Registry, m: Config, raw: Text) {
    exists fields: seq<Field> ::
      WellFormed(Obj(fields)) && ToTree(Obj(fields)) == CT.Obj(m) && raw == RenderConfig(reg, fields, true)
  }

  /** Whatever is written reads back as what survives JSON of it. */
  lemma ReadWritten(reg: Registry, m: Config, raw: Text)
    requires OneLine(reg) && Written(reg, m, raw)
    ensures ReadText(raw) == Ok(StoredConfig(m))
  {
    var fields: seq<Field> :|
      WellFormed(Obj(fields)) && ToTree(Obj(fields)) == CT.Obj(m) && raw == RenderConfig(reg, fields, true);
    ParseRendered(reg, fields);
    CleanTree(Obj(fields));
  }

  lemma {:induction false} TreeOfPure(v: Value)
    requires WellFormed(v) && Pure(v)
    ensures Json(ToTree(v))
  {
    match v
    case Arr(items) => forall i | 0 <= i < |items| ensures Json(ToTree(v).items[i]) { TreeOfPure(items[i]); }
    case Obj(fields) =>
      forall k | k in ToTree(v).fields ensures Json(ToTree(v).fields[k]) {
        MapKey(fields, |fields|, k);
        var i :| 0 <= i < |fields| && fields[i].key == k;
        MapAt(fields, |fields|, i);
        TreeOfPure(fields[i].value);
      }
    case _ =>
  }

  /** A file never holds anything undefined. */
  lemma ReadIsJson(raw: Text)
    ensures ReadText(raw).Ok? ==> Json(CT.Obj(ReadText(raw).value))
  {
    if ReadText(raw).Ok? {
      var s := Strip(raw).value;
      ParsedIsPure(SkipSpace(s));
      TreeOfPure(Parse(s).value);
    }
  }

  /** Rewriting what was read from any file changes nothing that is read. */
  lemma RewrittenReadsSame(reg: Registry, raw: Text, raw': Text)
    requires OneLine(reg) && ReadText(raw).Ok? && Written(reg, ReadText(raw).value, raw')
    ensures ReadText(raw') == ReadText(raw)
  {
    ReadIsJson(raw);
    StoredOfJson(CT.Obj(ReadText(raw).value));
    ReadWritten(reg, ReadText(raw).value, raw');
  }

  // ---------------------------------------------------------------- files that a user wrote

  /** What is left of the text without its comments is an object with these members and white space around it. */
  ghost predicate IsObjectText(raw: Text, before: Text, blank: Text, members: seq<G.Member>, after: Text) {
    && G.Blanks(before) && G.Blanks(blank) && G.MembersOk(members) && G.Blanks(after)
    && Strip(raw) == Some(before + G.Then(G.Object(blank, members), after))
  }

  /** The configuration holds each key of the object with the last value given for it. */
  ghost predicate HoldsLast(c: Config, members: seq<G.Member>)
    requires G.MembersOk(members)
  {
    forall k: Text :: CT.Lookup(c, k) ==
      if G.LastMember(members, k).Some? then Some(ToTree(G.LastMember(members, k).value)) else None
  }

  lemma {:induction false} LookupOfFields(fields: seq<Field>, k: Text)
    requires DistinctKeys(fields)
    ensures CT.Lookup(ToMap(fields, |fields|), k) ==
              if G.ValueAt(fields, k).Some? then Some(ToTree(G.ValueAt(fields, k).value)) else None
  {
    if forall f <- fields :: f.key != k {
      G.NoValueAt(fields, k);
      if k in ToMap(fields, |fields|) { MapKey(fields, |fields|, k); }
    } else {
      var f :| f in fields && f.key == k;
      var i :| 0 <= i < |fields| && fields[i] == f;
      G.ValueAtIs(fields, i);
      MapAt(fields, |fields|, i);
    }
  }

  /** Reading any text with comments succeeds exactly if what is left without them is one object, with any white
      space, spelling of strings and repetition of keys; and it gives each key the last value written for it. */
  lemma ReadIsGrammar(raw: Text, c: Config)
    ensures ReadText(raw) == Ok(c) <==>
              exists before: Text, blank: Text, members: seq<G.Member>, after: Text ::
                IsObjectText(raw, before, blank, members, after) && HoldsLast(c, members)
  {
    if ReadText(raw) == Ok(c) {
      var s := Strip(raw).value;
      var v := Parse(s).value;
      G.ParseIsGrammar(s, v);
      var before: Text, x: G.Syntax, after: Text :| G.IsDocument(s, v, before, x, after);
      assert x.Object?;
      ObjectHolds(v.fields, x.members);
      assert IsObjectText(raw, before, x.blank, x.members, after) && HoldsLast(c, x.members);
    }
    forall before: Text, blank: Text, members: seq<G.Member>, after: Text
      | IsObjectText(raw, before, blank, members, after) && HoldsLast(c, members)
      ensures ReadText(raw) == Ok(c)
    {
      var x := G.Object(blank, members);
      G.DocumentReads(before, x, after);
      var fields := G.FieldsMean([], members);
      ObjectHolds(fields, members);
      CT.SameMap(ToMap(fields, |fields|), c);
    }
  }

  lemma ObjectHolds(fields: seq<Field>, members: seq<G.Member>)
    requires G.MembersOk(members) && fields == G.FieldsMean([], members)
    ensures HoldsLast(ToMap(fields, |fields|), members)
  {
    hide G.FieldsMean, G.LastMember, ToMap, G.MembersOk;
    forall k: Text
      ensures CT.Lookup(ToMap(fields, |fields|), k) ==
                if G.LastMember(members, k).Some? then Some(ToTree(G.LastMember(members, k).value)) else None
    {
      G.FieldsAre([], members, k);
      LookupOfFields(fields, k);
    }
  }
}
