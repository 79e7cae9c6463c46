/** The transform that compacts log records before they leave the machine. */
module Telemetry {
  import opened Base
  import opened Text
  import opened ConfigTree
  import opened Lines
  import opened Utf8
  import JV = JsonValue
  import JP = JsonParse

  type Record = map<Text, Tree>

  datatype Category = Hostname | FilePath | Url | Config | Pii | Token | Diagnostic | Generic

  datatype ParamMeta = ParamMeta(redact: bool, category: Option<Category>)

  /** A catalog entry, as far as it matters here. */
  type Params = map<Text, ParamMeta>

  /** The catalog; the scrubbing of diagnostic texts; and JavaScript's String() of a value that is no string. */
  datatype Rules = Rules(catalog: map<Text, Params>, sanitize: Text -> Text, toText: Tree -> Text)

  const MSG_ID := Ascii("msgId")
  const MSG_KEY := Ascii("msgKey")
  const MSG := Ascii("msg")
  const SENTINEL := Ascii("00000000")

  const BASE_FIELDS: set<Text> := {
    Ascii("level"), Ascii("time"), Ascii("role"), Ascii("pid"), Ascii("version"), Ascii("installId"), Ascii("component"),
    MSG_ID, MSG_KEY}

  function Name(c: Category): string {
    match c
    case Hostname => "hostname" case FilePath => "path" case Url => "url" case Config => "config" case Pii => "pii"
    case Token => "token" case Diagnostic => "diagnostic" case Generic => "generic"
  }

  function Marker(c: Option<Category>): Tree {
    Str(Ascii("[REDACTED:") + Ascii(Name(if c.Some? then c.value else Generic)) + Ascii("]"))
  }

  // ---------------------------------------------------------------- one record

  /** What is sent of the value of a parameter. */
  function Scrub(r: Rules, meta: ParamMeta, value: Tree): Tree {
    if !meta.redact then value
    else if meta.category == Some(Diagnostic) then if value.Str? then Str(r.sanitize(value.s)) else value
    else Marker(meta.category)
  }

  function Redacted(r: Rules, record: Record, params: Params): Record {
    map k | k in record :: if k in params then Scrub(r, params[k], record[k]) else record[k]
  }

  function Picked(record: Record, allowed: set<Text>): Record {
    map k | k in record && k in allowed :: record[k]
  }

  /** The catalog entry of a record; a record without a non-empty message id has none. */
  function EntryOf(r: Rules, record: Record): Option<Params> {
    var id := Lookup(record, MSG_ID);
    if id.None? || !id.value.Str? || id.value.s == [] then None
    else
      var key := Lookup(record, MSG_KEY);
      var name := if key.None? || key.value.Null? || key.value.Undefined? then [] else if key.value.Str? then key.value.s else r.toText(key.value);
      if name in r.catalog then Some(r.catalog[name]) else None
  }

  function Compact(r: Rules, record: Record): Record {
    match EntryOf(r, record)
    case None => Picked(record, BASE_FIELDS)[MSG_ID := Str(SENTINEL)][MSG := Str(SENTINEL)]
    case Some(params) =>
      Picked(Redacted(r, record, params), BASE_FIELDS + params.Keys)[MSG := record[MSG_ID]]
  }

  method PickAllowed(record: Record, allowed: set<Text>) returns (out: Record)
    ensures out == Picked(record, allowed)
  {
    out := map[];
    var rest := record.Keys;
    while rest != {}
      invariant rest <= record.Keys
      invariant forall k :: k in out <==> k in record.Keys - rest && k in allowed
      invariant forall k <- out :: out[k] == record[k]
      decreases rest
    {
      var key :| key in rest;
      rest := rest - {key};
      if key in allowed { out := out[key := record[key]]; }
    }
  }

  method RedactParams(r: Rules, record: Record, entry: Option<Params>) returns (out: Record)
    ensures out == if entry.None? then record else Redacted(r, record, entry.value)
  {
    out := record;
    if entry.None? { return; }
    var params := entry.value;
    var rest := params.Keys;
    while rest != {}
      invariant rest <= params.Keys && out.Keys == record.Keys
      invariant forall k <- record ::
        out[k] == if k in params && k !in rest then Scrub(r, params[k], record[k]) else record[k]
      decreases rest
    {
      var name :| name in rest;
      rest := rest - {name};
      var meta := params[name];
      if meta.redact && name in out {
        if meta.category == Some(Diagnostic) {
          if out[name].Str? { out := out[name := Str(r.sanitize(out[name].s))]; }
        } else {
          out := out[name := Marker(meta.category)];
        }
      }
    }
  }

  method CompactRecord(r: Rules, record: Record) returns (out: Record)
    ensures out == Compact(r, record)
  {
    var entry := EntryOf(r, record);
    if entry.None? {
      out := PickAllowed(record, BASE_FIELDS);
      out := out[MSG_ID := Str(SENTINEL)];
      out := out[MSG := Str(SENTINEL)];
      return;
    }
    var redacted := RedactParams(r, record, entry);
    out := PickAllowed(redacted, BASE_FIELDS + entry.value.Keys);
    out := out[MSG := record[MSG_ID]];
  }

  // ---------------------------------------------------------------- what a compacted record tells

  predicate HiddenParam(meta: ParamMeta) { meta.redact && meta.category != Some(Diagnostic) }

  /** The records hold the same in the base fields and in the entry's other parameters, and both or neither
      hold each hidden parameter. */
  predicate Indistinguishable(a: Record, b: Record, params: Params) {
    && (forall k <- BASE_FIELDS :: Lookup(a, k) == Lookup(b, k))
    && (forall k <- params :: if HiddenParam(params[k]) then k in a <==> k in b else Lookup(a, k) == Lookup(b, k))
  }

  lemma SameEntry(r: Rules, a: Record, b: Record)
    requires forall k <- BASE_FIELDS :: Lookup(a, k) == Lookup(b, k)
    ensures EntryOf(r, a) == EntryOf(r, b) && Lookup(a, MSG_ID) == Lookup(b, MSG_ID)
  {
    assert MSG_ID in BASE_FIELDS && MSG_KEY in BASE_FIELDS;
  }

  lemma PickedAt(r: Rules, record: Record, params: Params, k: Text)
    ensures
      Lookup(Picked(Redacted(r, record, params), BASE_FIELDS + params.Keys), k) ==
        if k !in record then None
        else if k in params then Some(Scrub(r, params[k], record[k]))
        else if k in BASE_FIELDS then Some(record[k]) else None
  {
  }

  /** Nothing else about a record leaves the machine: not the rendered text, not a stray field, not the value
      of a hidden parameter. */
  lemma NonInterference(r: Rules, a: Record, b: Record)
    requires Indistinguishable(a, b, if EntryOf(r, a).Some? then EntryOf(r, a).value else map[])
    ensures Compact(r, a) == Compact(r, b)
  {
    SameEntry(r, a, b);
    match EntryOf(r, a) {
      case None =>
        forall k ensures Lookup(Picked(a, BASE_FIELDS), k) == Lookup(Picked(b, BASE_FIELDS), k) {
          if k in BASE_FIELDS { assert Lookup(a, k) == Lookup(b, k); }
        }
        SameMap(Picked(a, BASE_FIELDS), Picked(b, BASE_FIELDS));
      case Some(params) =>
        var x := Picked(Redacted(r, a, params), BASE_FIELDS + params.Keys);
        var y := Picked(Redacted(r, b, params), BASE_FIELDS + params.Keys);
        forall k ensures Lookup(x, k) == Lookup(y, k) {
          PickedAt(r, a, params, k);
          PickedAt(r, b, params, k);
          if k in params {
          } else if k in BASE_FIELDS {
            assert Lookup(a, k) == Lookup(b, k);
          }
        }
        SameMap(x, y);
    }
  }

  /** The names of the fields that are always sent. */
  predicate IsBase(k: Text) {
    || k == Ascii("level") || k == Ascii("time") || k == Ascii("role") || k == Ascii("pid") || k == Ascii("version")
    || k == Ascii("installId") || k == Ascii("component") || k == Ascii("msgId") || k == Ascii("msgKey")
  }

  /** The record has a non-empty message id, and its message key names this entry of the catalog. */
  predicate Names(r: Rules, record: Record, name: Text) {
    var id, key := Ascii("msgId"), Ascii("msgKey");
    && id in record && record[id].Str? && record[id].s != []
    && name == (if key !in record || record[key].Null? || record[key].Undefined? then []
                else if record[key].Str? then record[key].s else r.toText(record[key]))
    && name in r.catalog
  }

  /** The name of a category as it is sent. */
  function WireName(c: Option<Category>): string {
    match c
    case Some(Hostname) => "hostname"
    case Some(FilePath) => "path"
    case Some(Url) => "url"
    case Some(Config) => "config"
    case Some(Pii) => "pii"
    case Some(Token) => "token"
    case Some(Diagnostic) => "diagnostic"
    case _ => "generic"
  }

  lemma MarkerIs(c: Option<Category>)
    ensures Marker(c) == Str(Ascii("[REDACTED:" + WireName(c) + "]"))
  {
    hide Ascii;
    AsciiAppend("[REDACTED:", WireName(c));
    AsciiAppend("[REDACTED:" + WireName(c), "]");
  }

  /** What is sent of a record with a catalog entry, exactly: the message id as the message, and the base fields and
      the entry's parameters that the record has. A parameter marked for redaction is replaced by the marker of its
      category, a diagnostic text by its sanitized form; every other value is sent as it is. */
  lemma CataloguedIs(r: Rules, record: Record, name: Text, k: Text)
    requires Names(r, record, name)
    ensures
      var out, params := Compact(r, record), r.catalog[name];
      && (k in out <==> k == Ascii("msg") || (k in record && (IsBase(k) || k in params)))
      && (k == Ascii("msg") ==> out[k] == record[Ascii("msgId")])
      && (k in out && k != Ascii("msg") ==>
            out[k] ==
              if k !in params || !params[k].redact then record[k]
              else if params[k].category != Some(Diagnostic) then Str(Ascii("[REDACTED:" + WireName(params[k].category) + "]"))
              else if record[k].Str? then Str(r.sanitize(record[k].s)) else record[k])
  {
    var params := r.catalog[name];
    assert EntryOf(r, record) == Some(params);
    PickedAt(r, record, params, k);
    if k in params { MarkerIs(params[k].category); }
  }

  /** What is sent of any other record, exactly: the sentinel as message and message id, and the other base fields. */
  lemma UncataloguedIs(r: Rules, record: Record, k: Text)
    requires forall name: Text :: !Names(r, record, name)
    ensures
      var out := Compact(r, record);
      && (k in out <==> k == Ascii("msg") || k == Ascii("msgId") || (k in record && IsBase(k)))
      && (k in out ==> out[k] == if k == Ascii("msg") || k == Ascii("msgId") then Str(Ascii("00000000")) else record[k])
  {
    var id, key := Ascii("msgId"), Ascii("msgKey");
    if id in record && record[id].Str? && record[id].s != [] {
      var name := if key !in record || record[key].Null? || record[key].Undefined? then []
                  else if record[key].Str? then record[key].s else r.toText(record[key]);
      assert !Names(r, record, name);
    }
    assert EntryOf(r, record) == None;
  }

  /** Every field of a compacted record is the message id, a base field, or a scrubbed parameter of the entry. */
  lemma OnlyAllowedFields(r: Rules, record: Record, k: Text)
    requires k in Compact(r, record)
    ensures
      match EntryOf(r, record)
      case None => if k == MSG || k == MSG_ID then Compact(r, record)[k] == Str(SENTINEL)
                   else k in BASE_FIELDS && k in record && Compact(r, record)[k] == record[k]
      case Some(params) => if k == MSG then Compact(r, record)[k] == record[MSG_ID]
                           else k in record && if k in params then Compact(r, record)[k] == Scrub(r, params[k], record[k])
                                               else k in BASE_FIELDS && Compact(r, record)[k] == record[k]
  {
    if EntryOf(r, record).Some? && k != MSG {
      PickedAt(r, record, EntryOf(r, record).value, k);
    }
  }

  /** Some sanitizer changes this value of a redacted parameter, unless it is a diagnostic and no string. (A value
      that equals its own marker cannot be told from a scrubbed one.) */
  lemma ScrubSpares(r: Rules, meta: ParamMeta, value: Tree)
    requires meta.redact && value != Marker(meta.category)
    ensures (forall f: Text -> Text :: Scrub(r.(sanitize := f), meta, value) == value) <==>
            meta.category == Some(Diagnostic) && !value.Str?
  {
    if meta.category == Some(Diagnostic) && value.Str? {
      var f: Text -> Text := t => t + [0];
      assert Scrub(r.(sanitize := f), meta, value) == Str(value.s + [0]);
      assert |value.s + [0]| != |value.s|;
    } else if meta.category != Some(Diagnostic) {
      assert Scrub(r.(sanitize := r.sanitize), meta, value) == Marker(meta.category);
    }
  }

  lemma CompactedParam(r: Rules, record: Record, k: Text)
    requires EntryOf(r, record).Some? && k in EntryOf(r, record).value && k in record && k != MSG
    ensures Lookup(Compact(r, record), k) == Some(Scrub(r, EntryOf(r, record).value[k], record[k]))
  {
    PickedAt(r, record, EntryOf(r, record).value, k);
  }

  /** Exactly when the value of a redacted parameter leaves the machine as it is, whatever the sanitizer does: when
      it is marked as a diagnostic and is not a string. */
  lemma RedactedValueLeavesExactlyIf(r: Rules, record: Record, k: Text)
    requires EntryOf(r, record).Some? && k in EntryOf(r, record).value && k in record && k != MSG
    requires EntryOf(r, record).value[k].redact && record[k] != Marker(EntryOf(r, record).value[k].category)
    ensures
      var meta := EntryOf(r, record).value[k];
      (forall f: Text -> Text :: Lookup(Compact(r.(sanitize := f), record), k) == Some(record[k])) <==>
        meta.category == Some(Diagnostic) && !record[k].Str?
  {
    var meta := EntryOf(r, record).value[k];
    forall f: Text -> Text
      ensures Lookup(Compact(r.(sanitize := f), record), k) == Some(Scrub(r.(sanitize := f), meta, record[k]))
    {
      assert EntryOf(r.(sanitize := f), record) == EntryOf(r, record);
      CompactedParam(r.(sanitize := f), record, k);
    }
    ScrubSpares(r, meta, record[k]);
    if meta.category == Some(Diagnostic) && !record[k].Str? {
    } else {
      var f: Text -> Text :| Scrub(r.(sanitize := f), meta, record[k]) != record[k];
      assert Lookup(Compact(r.(sanitize := f), record), k) != Some(record[k]);
    }
  }

  /** An input: an error number given as a diagnostic is sent as it is. */
  method SendsDiagnosticNumber(sanitize: Text -> Text, toText: Tree -> Text) returns (out: Record)
    ensures Lookup(out, Ascii("error")) == Some(Num([0x35, 0x30, 0x30]))
  {
    var meta := ParamMeta(true, Some(Diagnostic));
    var r := Rules(map[Ascii("k") := map[Ascii("error") := meta]], sanitize, toText);
    var record: Record := map[MSG_ID := Str(Ascii("0a1b2c3d")), MSG_KEY := Str(Ascii("k")), Ascii("error") := Num([0x35, 0x30, 0x30])];
    FieldNamesDiffer();
    assert EntryOf(r, record) == Some(map[Ascii("error") := meta]);
    CompactedParam(r, record, Ascii("error"));
    out := CompactRecord(r, record);
  }

  lemma FieldNamesDiffer()
    ensures MSG_ID != MSG_KEY && MSG_ID != Ascii("error") && MSG_KEY != Ascii("error") && MSG != Ascii("error")
    ensures Ascii("0a1b2c3d") != []
  {
    assert |MSG_ID| == 5 && |MSG_KEY| == 6 && |MSG| == 3 && |Ascii("error")| == 5;
    assert MSG_ID[0] == 0x6D && Ascii("error")[0] == 0x65;
    assert |Ascii("0a1b2c3d")| == 8;
  }

  // ---------------------------------------------------------------- the stream

  const SENTINEL_RECORD: Record := map[MSG_ID := Str(SENTINEL), MSG := Str(SENTINEL)]

  /** The record sent for a line. A line that is no JSON object gives the sentinel alone. */
  function LineRecord(r: Rules, line: Text): Record {
    match JP.Parse(line)
    case None => SENTINEL_RECORD
    case Some(v) => if v.Obj? then Compact(r, JV.ToMap(v.fields, |v.fields|)) else SENTINEL_RECORD
  }

  /** White space and line terminators, as String.prototype.trim has them. */
  predicate IsBlankUnit(u: Unit) {
    0x09 <= u <= 0x0D || u == 0x20 || u == 0xA0 || u == 0x1680 || 0x2000 <= u <= 0x200A || u == 0x2028 || u == 0x2029
    || u == 0x202F || u == 0x205F || u == 0x3000 || u == 0xFEFF
  }

  predicate Blank(line: Text) { forall u <- line :: IsBlankUnit(u) }

  function Sent(r: Rules, line: Text): seq<Record> {
    if Blank(line) then [] else [LineRecord(r, line)]
  }

  /** What is sent for one line, exactly: nothing for white space; for a JSON object the compacted record; for anything
      else the sentinel as message and message id, and nothing of the line. */
  lemma SentIs(r: Rules, line: Text)
    ensures (forall u <- line :: u in {0x09, 0x0A, 0x0B, 0x0C, 0x0D, 0x20, 0xA0, 0x1680, 0x2000, 0x2001, 0x2002, 0x2003, 0x2004,
                                       0x2005, 0x2006, 0x2007, 0x2008, 0x2009, 0x200A, 0x2028, 0x2029, 0x202F, 0x205F,
                                       0x3000, 0xFEFF}) <==> Sent(r, line) == []
    ensures Sent(r, line) != [] ==>
      Sent(r, line) ==
        match JP.Parse(line)
        case Some(Obj(fields)) => [Compact(r, JV.ToMap(fields, |fields|))]
        case _ => [map[Ascii("msgId") := Str(Ascii("00000000")), Ascii("msg") := Str(Ascii("00000000"))]]
  {
    hide Ascii;
    forall u: Unit
      ensures IsBlankUnit(u) <==> u in {0x09, 0x0A, 0x0B, 0x0C, 0x0D, 0x20, 0xA0, 0x1680, 0x2000, 0x2001, 0x2002, 0x2003,
                                        0x2004, 0x2005, 0x2006, 0x2007, 0x2008, 0x2009, 0x200A, 0x2028, 0x2029, 0x202F,
                                        0x205F, 0x3000, 0xFEFF}
    {
      BlankUnitsAre(u);
    }
  }

  lemma BlankUnitsAre(u: Unit)
    ensures IsBlankUnit(u) <==> u in {0x09, 0x0A, 0x0B, 0x0C, 0x0D, 0x20, 0xA0, 0x1680, 0x2000, 0x2001, 0x2002, 0x2003, 0x2004,
                                      0x2005, 0x2006, 0x2007, 0x2008, 0x2009, 0x200A, 0x2028, 0x2029, 0x202F, 0x205F,
                                      0x3000, 0xFEFF}
  {
  }

  function Sender(r: Rules): Text -> seq<Record> { line => Sent(r, line) }

  class Transform {
    const r: Rules
    var buffer: Text
    var pushed: seq<Record>

    constructor (r: Rules)
      ensures this.r == r && buffer == [] && pushed == []
    {
      this.r, buffer, pushed := r, [], [];
    }

    /** Each chunk is decoded on its own. */
    method Chunk(chunk: Bytes)
      modifies this
      ensures buffer == Feed(Sender(r), old(buffer) + Decode(chunk)).1
      ensures pushed == old(pushed) + Feed(Sender(r), old(buffer) + Decode(chunk)).0
    {
      buffer := buffer + Decode(chunk);
      ghost var all := buffer;
      var nl := IndexOfLf(buffer);
      while nl < |buffer|
        invariant nl == IndexOfLf(buffer)
        invariant Feed(Sender(r), all).1 == Feed(Sender(r), buffer).1
        invariant old(pushed) + Feed(Sender(r), all).0 == pushed + Feed(Sender(r), buffer).0
        decreases |buffer|
      {
        var line := buffer[..nl];
        SendLine(Sender(r), pushed, buffer);
        buffer := buffer[nl + 1..];
        Push(line);
        nl := IndexOfLf(buffer);
      }
      SendLine(Sender(r), pushed, buffer);
    }

    /** A blank line is skipped. */
    method Push(line: Text)
      modifies this`pushed
      ensures pushed == old(pushed) + Sender(r)(line)
    {
      if !Blank(line) {
        var sent := Emit(line);
        pushed := pushed + [sent];
      }
    }

    method Emit(line: Text) returns (out: Record)
      ensures out == LineRecord(r, line)
    {
      var v := JP.Parse(line);
      if v.None? || !v.value.Obj? { return SENTINEL_RECORD; }
      out := CompactRecord(r, JV.ToMap(v.value.fields, |v.value.fields|));
    }

    method Flush()
      modifies this
      ensures pushed == old(pushed) + Sender(r)(old(buffer))
    {
      if !Blank(buffer) {
        Push(buffer);
        buffer := [];
      }
    }
  }

  /** What is sent depends on the characters alone, not on the chunks they arrive in, and a newline at the end
      makes no difference. */
  lemma OnlyCharactersMatter(r: Rules, a: seq<Text>, b: seq<Text>)
    requires Concat(a) == Concat(b) || Concat(a) == Concat(b) + [LF]
    ensures SendAll(Sender(r), [], a) == SendAll(Sender(r), [], b)
  {
    ChunksDoNotMatter(Sender(r), a);
    ChunksDoNotMatter(Sender(r), b);
    LastNewlineIsOptional(Sender(r), Concat(b));
  }

  /** As long as no chunk ends inside a character, what is sent depends on the bytes alone. */
  lemma CutsBetweenCharactersDoNotMatter(r: Rules, chunks: seq<Bytes>)
    requires forall c <- chunks :: WellFormed(c)
    ensures SendAll(Sender(r), [], DecodeEach(chunks)) == Stream(Sender(r), Decode(Concat(chunks)))
  {
    EachDecodes(chunks);
    ChunksDoNotMatter(Sender(r), DecodeEach(chunks));
  }

  /** A cut inside a character can show: the two bytes of a no-break space are a blank line together, and a line
      that is no JSON object when they arrive one by one. */
  lemma CutInsideCharacterShows(r: Rules)
    ensures SendAll(Sender(r), [], DecodeEach([[0xC2, 0xA0]])) == []
    ensures SendAll(Sender(r), [], DecodeEach([[0xC2], [0xA0]])) == [SENTINEL_RECORD]
  {
    hide *;
    NoBreakSpace();
    SendsOneLine(r, [[0xC2, 0xA0]], [0xA0]);
    SendsOneLine(r, [[0xC2], [0xA0]], [REPLACEMENT, REPLACEMENT]);
    BlankOrNot(r);
  }

  lemma NoBreakSpace()
    ensures Concat(DecodeEach([[0xC2, 0xA0]])) == [0xA0] && Concat(DecodeEach([[0xC2], [0xA0]])) == [REPLACEMENT, REPLACEMENT]
    ensures NoLf([0xA0]) && NoLf([REPLACEMENT, REPLACEMENT])
  {
    EncodedStarts(0xA0, []);
    assert EncodeScalar(0xA0) + [] == [0xC2, 0xA0];
    assert Decode([0xC2, 0xA0]) == [0xA0];
    assert Decode([0xC2]) == [REPLACEMENT] && Decode([0xA0]) == [REPLACEMENT];
    EachCons([0xC2], [[0xA0]]);
    EachCons([0xA0], []);
    EachCons([0xC2, 0xA0], []);
    assert [[0xC2]] + [[0xA0]] == [[0xC2], [0xA0]] && [[0xA0]] + [] == [[0xA0]] && [[0xC2, 0xA0]] + [] == [[0xC2, 0xA0]];
  }

  lemma BlankOrNot(r: Rules)
    ensures Sent(r, [0xA0]) == [] && Sent(r, [REPLACEMENT, REPLACEMENT]) == [SENTINEL_RECORD]
  {
    assert JP.Parse([REPLACEMENT, REPLACEMENT]).None?;
    assert Blank([0xA0]);
    assert REPLACEMENT in [REPLACEMENT, REPLACEMENT] && !IsBlankUnit(REPLACEMENT);
  }

  lemma SendsOneLine(r: Rules, chunks: seq<Bytes>, line: Text)
    requires Concat(DecodeEach(chunks)) == line && NoLf(line)
    ensures SendAll(Sender(r), [], DecodeEach(chunks)) == Sent(r, line)
  {
    hide Sent;
    ChunksDoNotMatter(Sender(r), DecodeEach(chunks));
    assert [] + Sent(r, line) == Sent(r, line);
  }
}
